/**
 No forgotten placeholder: a row that was answered with a default item is refreshed later.
 */
module Placeholders {

  import opened RecentlyUsed
  import opened RemoteModel
  import opened RemoteModelRuns

  // ----- the rows a view shows a default item for

  // The row at which a view finds, after a change signal, what was at row r before.
  function NewRow(n: Notice, r: int): int {
    match n
    case RowsInserted(first, last) => if r < first then r else r + (last - first + 1)
    case RowsRemoved(first, _) => if r < first then r else r - (n.last - first + 1)
    case RowsMoved(first, last, destination) =>
      if destination <= first then
        if destination <= r < first then r + (last - first + 1)
        else if first <= r <= last then r - (first - destination)
        else r
      else
        if last < r < destination then r - (last - first + 1)
        else if first <= r <= last then r + (destination - last - 1)
        else r
    case _ => r
  }

  // Is row r gone, or will the view read it again?
  predicate Drops(n: Notice, r: int) {
    match n
    case Item(row) => r == row
    case Changed(first, last) => first <= r <= last
    case RowsRemoved(first, last) => first <= r <= last
    case WasReset => true
    case _ => false
  }

  function Noticed(rows: set<int>, n: Notice): set<int> {
    if n.Placeholder? then rows + {n.row} else set r | r in rows && !Drops(n, r) :: NewRow(n, r)
  }

  function Unrefreshed(told: seq<Notice>): set<int> {
    if told == [] then {} else Noticed(Unrefreshed(told[..|told| - 1]), told[|told| - 1])
  }

  lemma UnrefreshedAppend(told: seq<Notice>, n: Notice)
    ensures Unrefreshed(told + [n]) == Noticed(Unrefreshed(told), n)
  {
    assert (told + [n])[..|told|] == told;
  }

  // The other rows stay where they are when items are read or changed.
  lemma NoticedInPlace(told: seq<Notice>, n: Notice)
    requires n.Item? || n.Changed?
    ensures forall r :: r in Unrefreshed(told + [n]) <==> r in Unrefreshed(told) && !Drops(n, r)
  {
    UnrefreshedAppend(told, n);
    forall r
      ensures r in Noticed(Unrefreshed(told), n) <==> r in Unrefreshed(told) && !Drops(n, r)
    {
      assert NewRow(n, r) == r;
    }
  }

  // What a view is told when an event is handled.
  function NoticeOf<T>(e: Event<T>): Notice {
    match e
    case DataChanged(first, items) => Changed(first, first + |items| - 1)
    case Insert(first, last) => RowsInserted(first, last)
    case Remove(first, last) => RowsRemoved(first, last)
    case Move(first, last, destination) => RowsMoved(first, last, destination)
    case Reset(_) => WasReset
  }

  lemma EventNoticed<T>(p: Proxy<T>, e: Event<T>)
    ensures Unrefreshed(HandleEvent(p, e).told) == Noticed(Unrefreshed(p.told), NoticeOf(e))
  {
    UnrefreshedAppend(p.told, NoticeOf(e));
  }

  lemma RelocatedRow<T>(list: seq<T>, first: int, last: int, destination: int, r: int)
    requires 0 <= first <= last < |list| && 0 <= destination <= |list| && (destination <= first || destination > last)
    requires 0 <= r < |list|
    ensures var row := NewRow(RowsMoved(first, last, destination), r);
            0 <= row < |list| && Relocate(list, first, last, destination)[row] == list[r]
  {
    var (a, b, c) := if destination <= first then (destination, first, last + 1) else (first, last + 1, destination);
    assert Relocate(list, first, last, destination) == list[..a] + list[b..c] + list[a..b] + list[c..];
    assert NewRow(RowsMoved(first, last, destination), r)
      == if a <= r < b then r + (c - b) else if b <= r < c then r - (b - a) else r;
    hide Relocate, NewRow;
    SwapBlocks(list, a, b, c, r);
  }

  // Two neighbouring blocks change places.
  lemma SwapBlocks<T>(list: seq<T>, a: nat, b: nat, c: nat, r: nat)
    requires a <= b <= c <= |list| && r < |list|
    ensures var row := if a <= r < b then r + (c - b) else if b <= r < c then r - (b - a) else r;
            (list[..a] + list[b..c] + list[a..b] + list[c..])[row] == list[r]
  {
  }

  /** What is not dropped is where the view finds it: the row moves with its item. */
  lemma RowsFollowItems<T>(before: seq<T>, e: Event<T>, at: seq<T>, r: int)
    requires Faithful(before, EventMessage(e, at)) && 0 <= r < |before| && !Drops(NoticeOf(e), r)
    ensures 0 <= NewRow(NoticeOf(e), r) < |at| && at[NewRow(NoticeOf(e), r)] == before[r]
  {
    match e
    case Insert(first, last) =>
      assert r < first ==> at[..first][r] == before[..first][r];
      assert r >= first ==> at[last + 1..][r - first] == before[first..][r - first];
    case Move(first, last, destination) =>
      RelocatedRow(before, first, last, destination, r);
      hide NewRow, Relocate;
    case _ =>
  }

  // ----- nothing is forgotten

  // A request for the row, or the reply to one, is on its way.
  ghost predicate Covered<T>(outbox: seq<(int, int)>, inbox: seq<Message<T>>, row: int) {
    || (exists k :: 0 <= k < |outbox| && outbox[k].0 <= row <= outbox[k].1)
    || (exists k :: 0 <= k < |inbox| && inbox[k].ReplyMessage? &&
         inbox[k].first <= row < inbox[k].first + |inbox[k].items|)
  }

  // An event on its way that makes the proxy forget its requests.
  predicate Clears<T>(m: Message<T>) {
    m.EventMessage? && (m.event.Insert? || m.event.Reset?)
  }

  predicate ClearingPending<T>(inbox: seq<Message<T>>) {
    exists k :: 0 <= k < |inbox| && Clears(inbox[k])
  }

  /** Every requested row, and every row shown by default, is covered as far as the server still has
      it; and a row shown by default is remembered and not cached. */
  ghost predicate Remembered<T>(p: Proxy<T>, inbox: seq<Message<T>>, length: nat) {
    && (forall r :: r in p.requested ==> 0 <= r && (r < length ==> Covered(p.outbox, inbox, r)))
    && (forall r :: r in Unrefreshed(p.told) ==>
          && 0 <= r < p.size && r in p.placeholders && !Has(p.cache, r)
          && (r < length ==> Covered(p.outbox, inbox, r)))
  }

  ghost predicate NothingForgotten<T>(s: System<T>) {
    && Synchronized(s)
    && (ClearingPending(s.inbox) || Remembered(s.proxy, s.inbox, |s.list|))
  }

  lemma CoveredGrows<T>(outbox: seq<(int, int)>, inbox: seq<Message<T>>, request: (int, int), m: Message<T>, row: int)
    requires Covered(outbox, inbox, row)
    ensures Covered(outbox + [request], inbox, row) && Covered(outbox, inbox + [m], row)
  {
    if k :| 0 <= k < |outbox| && outbox[k].0 <= row <= outbox[k].1 {
      assert (outbox + [request])[k].0 <= row <= (outbox + [request])[k].1;
    } else {
      var k :| 0 <= k < |inbox| && inbox[k].ReplyMessage? && inbox[k].first <= row < inbox[k].first + |inbox[k].items|;
      assert (inbox + [m])[k] == inbox[k];
    }
  }

  lemma RequestRemembers<T>(p: Proxy<T>, inbox: seq<Message<T>>, length: nat, index: int)
    requires Remembered(p, inbox, length)
    ensures Remembered(RequestItems(p, index), inbox, length)
  {
    WindowSound(p, index);
    match WindowAround(p, index)
    case NoWindow =>
    case Window(first, last) =>
      var p' := RequestItems(p, index);
      forall r | r < length && (r in p'.requested || r in Unrefreshed(p'.told))
        ensures Covered(p'.outbox, inbox, r)
      {
        if r in p.requested || r in Unrefreshed(p'.told) {
          CoveredGrows(p.outbox, inbox, (first, last), ReplyMessage(0, [], []), r);
        } else {
          assert p'.outbox[|p.outbox|] == (first, last);
        }
      }
  }

  lemma FetchRemembers<T>(p: Proxy<T>, inbox: seq<Message<T>>, length: nat, row: int, server: seq<T>)
    requires Remembered(p, inbox, length) && 0 <= row < p.size
    ensures Remembered(Fetch(p, row, false, server), inbox, length)
  {
    if !Has(p.cache, row) {
      RequestRemembers(p, inbox, length, row);
      RequestedAfterwards(p, row);
      UnrefreshedAppend(p.told, Placeholder(row));
      assert RequestItems(p, row).told == p.told;
      hide RequestItems, Covered, Unrefreshed;
    }
  }

  lemma PrefetchRemembers<T>(p: Proxy<T>, inbox: seq<Message<T>>, length: nat, row: int)
    requires Remembered(p, inbox, length)
    ensures Remembered(Prefetch(p, row), inbox, length)
  {
    hide Remembered;
    var next := Min(p.size, row + PREFETCH_ITEM_COUNT);
    RequestRemembers(p, inbox, length, next);
    var p1 := if !Has(p.cache, next) && next !in p.requested then RequestItems(p, next) else p;
    RequestRemembers(p1, inbox, length, Max(0, row - PREFETCH_ITEM_COUNT));
  }

  lemma TouchRemembers<T>(p: Proxy<T>, inbox: seq<Message<T>>, length: nat, row: int)
    requires Remembered(p, inbox, length) && Has(p.cache, row)
    ensures Remembered(p.(cache := Touch(p.cache, row), told := p.told + [Item(row)]), inbox, length)
  {
    hide Covered, Touch, Unrefreshed;
    NoticedInPlace(p.told, Item(row));
    forall r
      ensures Has(Touch(p.cache, row), r) <==> Has(p.cache, r)
    {
      TouchFinds(p.cache, row, r);
    }
  }

  lemma AskRemembers<T>(p: Proxy<T>, inbox: seq<Message<T>>, length: nat, row: int, server: seq<T>)
    requires Remembered(p, inbox, length) && 0 <= row < p.size
    ensures Remembered(ModelData(p, row, false, server).0, inbox, length)
  {
    hide Remembered, Prefetch, Fetch, Touch;
    FetchRemembers(p, inbox, length, row, server);
    PrefetchRemembers(Fetch(p, row, false, server), inbox, length, row);
    var p1 := Prefetch(Fetch(p, row, false, server), row);
    if Has(p1.cache, row) {
      TouchRemembers(p1, inbox, length, row);
    }
  }

  // What one item of a reply does to a row that waits for it, and to the others.
  lemma ReplyItemRefreshes<T>(p: Proxy<T>, i: int, item: T)
    requires forall r :: r in Unrefreshed(p.told) ==> r in p.placeholders && !Has(p.cache, r)
    ensures var p' := ReplyItem(p, i, item);
            && (forall r :: r in Unrefreshed(p'.told) <==> r in Unrefreshed(p.told) && r != i)
            && (forall r :: r in p'.requested <==> r in p.requested && r != i)
            && (forall r :: r in Unrefreshed(p'.told) ==> r in p'.placeholders && !Has(p'.cache, r))
  {
    var p' := ReplyItem(p, i, item);
    NoticedInPlace(p.told, Changed(i, i));
    forall r | r in Unrefreshed(p'.told)
      ensures !Has(p'.cache, r)
    {
      ReplyItemFinds(p, i, item, r);
    }
  }

  lemma {:induction false} ReplyRefreshes<T>(p: Proxy<T>, first: int, items: seq<T>)
    requires forall r :: r in Unrefreshed(p.told) ==> r in p.placeholders && !Has(p.cache, r)
    ensures var p' := HandleReply(p, first, items);
            && p'.size == p.size && p'.outbox == p.outbox
            && (forall r :: r in Unrefreshed(p'.told) <==> r in Unrefreshed(p.told) && !(first <= r < first + |items|))
            && (forall r :: r in p'.requested <==> r in p.requested && !(first <= r < first + |items|))
            && (forall r :: r in Unrefreshed(p'.told) ==> r in p'.placeholders && !Has(p'.cache, r))
    decreases |items|
  {
    if items != [] {
      ReplyItemRefreshes(p, first, items[0]);
      hide ReplyItem, Unrefreshed;
      ReplyRefreshes(ReplyItem(p, first, items[0]), first + 1, items[1..]);
    }
  }

  // Coverage after the oldest message is handled.
  lemma CoveredShrinks<T>(outbox: seq<(int, int)>, inbox: seq<Message<T>>, row: int)
    requires inbox != [] && Covered(outbox, inbox, row)
    requires inbox[0].ReplyMessage? ==> !(inbox[0].first <= row < inbox[0].first + |inbox[0].items|)
    ensures Covered(outbox, inbox[1..], row)
  {
    if k :| 0 <= k < |inbox| && inbox[k].ReplyMessage? && inbox[k].first <= row < inbox[k].first + |inbox[k].items| {
      assert inbox[1..][k - 1] == inbox[k];
    }
  }

  // A row shown by default that the event leaves at its place, drops or lets the view read again.
  predicate Harmless<T>(e: Event<T>, r: int) {
    !e.Insert? && (Drops(NoticeOf(e), r) || NewRow(NoticeOf(e), r) == r)
  }

  /** When an event is handled, no row still shown by default is moved to another place; and at an
      insertion, which clears the proxy's lists, there is none. */
  ghost predicate Calm<T>(s: System<T>, step: Step<T>)
    requires Enabled(s, step)
  {
    step.Deliver? && s.inbox[0].EventMessage? ==>
      forall r :: r in Unrefreshed(s.proxy.told) ==> Harmless(s.inbox[0].event, r)
  }

  lemma ReplyForgetsNothing<T>(p: Proxy<T>, inbox: seq<Message<T>>, length: nat)
    requires Remembered(p, inbox, length) && inbox != [] && inbox[0].ReplyMessage?
    ensures Remembered(Handle(p, inbox[0]), inbox[1..], length)
  {
    var p' := Handle(p, inbox[0]);
    ReplyRefreshes(p, inbox[0].first, inbox[0].items);
    hide HandleReply, Unrefreshed, Covered;
    forall r | r < length && (r in p'.requested || r in Unrefreshed(p'.told))
      ensures Covered(p'.outbox, inbox[1..], r)
    {
      CoveredShrinks(p.outbox, inbox, r);
    }
  }

  lemma EventForgetsNothing<T>(p: Proxy<T>, inbox: seq<Message<T>>, before: seq<T>, length: nat)
    requires Remembered(p, inbox, length) && inbox != [] && inbox[0].EventMessage? && !Clears(inbox[0])
    requires Agrees(p, before) && Faithful(before, inbox[0])
    requires forall r :: r in Unrefreshed(p.told) ==> Harmless(inbox[0].event, r)
    ensures Remembered(Handle(p, inbox[0]), inbox[1..], length)
  {
    var e, p' := inbox[0].event, Handle(p, inbox[0]);
    EventNoticed(p, e);
    hide Unrefreshed, Covered;
    forall r | r in Unrefreshed(p'.told)
      ensures r in Unrefreshed(p.told) && r < p'.size && !Has(p'.cache, r)
    {
      if e.DataChanged? {
        PutAllFinds(p.cache, e.first, e.items, r);
      }
    }
    forall r | r < length && (r in p'.requested || r in Unrefreshed(p'.told))
      ensures Covered(p'.outbox, inbox[1..], r)
    {
      CoveredShrinks(p.outbox, inbox, r);
    }
  }

  lemma ClearingForgetsNothing<T>(p: Proxy<T>, e: Event<T>, inbox: seq<Message<T>>, length: nat)
    requires e.Insert? || e.Reset?
    requires forall r :: r in Unrefreshed(p.told) ==> Harmless(e, r)
    ensures Remembered(HandleEvent(p, e), inbox, length)
  {
    EventNoticed(p, e);
    assert Unrefreshed(HandleEvent(p, e).told) == {};
  }

  lemma DeliverForgetsNothing<T>(s: System<T>)
    requires NothingForgotten(s) && s.inbox != [] && Calm(s, Deliver)
    ensures NothingForgotten(Next(s, Deliver))
  {
    StepSynchronized(s, Deliver);
    var m, rest := s.inbox[0], s.inbox[1..];
    if ClearingPending(s.inbox) && !Clears(m) {
      var k :| 0 <= k < |s.inbox| && Clears(s.inbox[k]);
      assert Clears(rest[k - 1]);
    } else if Clears(m) {
      ClearingForgetsNothing(s.proxy, m.event, rest, |s.list|);
    } else if m.ReplyMessage? {
      ReplyForgetsNothing(s.proxy, s.inbox, |s.list|);
    } else {
      EventForgetsNothing(s.proxy, s.inbox, s.view, |s.list|);
    }
  }

  // Coverage of a row the server has, after it served the oldest request.
  lemma ServeCovers<T>(s: System<T>, r: int)
    requires s.proxy.outbox != [] && 0 <= r < |s.list| && Covered(s.proxy.outbox, s.inbox, r)
    ensures var s' := Next(s, ServeRequest);
            Covered(s'.proxy.outbox, s'.inbox, r)
  {
    var s' := Next(s, ServeRequest);
    var reply := s'.inbox[|s.inbox|];
    if k :| 0 <= k < |s.proxy.outbox| && s.proxy.outbox[k].0 <= r <= s.proxy.outbox[k].1 {
      if k == 0 {
        assert reply.first <= r < reply.first + |reply.items|;
      } else {
        assert s'.proxy.outbox[k - 1] == s.proxy.outbox[k];
      }
    } else {
      var k :| 0 <= k < |s.inbox| && s.inbox[k].ReplyMessage? &&
          s.inbox[k].first <= r < s.inbox[k].first + |s.inbox[k].items|;
      assert s'.inbox[k] == s.inbox[k];
    }
  }

  lemma ServeForgetsNothing<T>(s: System<T>)
    requires NothingForgotten(s) && s.proxy.outbox != []
    ensures NothingForgotten(Next(s, ServeRequest))
  {
    var s' := Next(s, ServeRequest);
    StepSynchronized(s, ServeRequest);
    if ClearingPending(s.inbox) {
      var k :| 0 <= k < |s.inbox| && Clears(s.inbox[k]);
      assert Clears(s'.inbox[k]);
    } else {
      forall r | 0 <= r < |s.list| && Covered(s.proxy.outbox, s.inbox, r)
        ensures Covered(s'.proxy.outbox, s'.inbox, r)
      {
        ServeCovers(s, r);
      }
    }
  }

  lemma PerformForgetsNothing<T>(s: System<T>, e: Edit<T>)
    requires NothingForgotten(s) && e.InRange(|s.list|)
    ensures NothingForgotten(Next(s, Perform(e)))
  {
    var s' := Next(s, Perform(e));
    StepSynchronized(s, Perform(e));
    var m := s'.inbox[|s.inbox|];
    if ClearingPending(s.inbox) {
      var k :| 0 <= k < |s.inbox| && Clears(s.inbox[k]);
      assert Clears(s'.inbox[k]);
    } else if !Clears(m) {
      forall r | Covered(s.proxy.outbox, s.inbox, r)
        ensures Covered(s'.proxy.outbox, s'.inbox, r)
      {
        CoveredGrows(s.proxy.outbox, s.inbox, (0, 0), m, r);
      }
    }
  }

  lemma StepForgetsNothing<T>(s: System<T>, step: Step<T>)
    requires NothingForgotten(s) && Enabled(s, step) && Calm(s, step)
    ensures NothingForgotten(Next(s, step))
  {
    match step
    case Perform(e) => PerformForgetsNothing(s, e);
    case Ask(row) =>
      StepSynchronized(s, step);
      if !ClearingPending(s.inbox) {
        AskRemembers(s.proxy, s.inbox, |s.list|, row, s.list);
      }
    case ServeRequest => ServeForgetsNothing(s);
    case Deliver => DeliverForgetsNothing(s);
  }

  ghost predicate AllCalm<T>(s: System<T>, steps: seq<Step<T>>)
    requires AllEnabled(s, steps)
    decreases |steps|
  {
    steps == [] || (Calm(s, steps[0]) && AllCalm(Next(s, steps[0]), steps[1..]))
  }

  lemma {:induction false} RunForgetsNothing<T>(s: System<T>, steps: seq<Step<T>>)
    requires NothingForgotten(s) && AllEnabled(s, steps) && AllCalm(s, steps)
    ensures NothingForgotten(Run(s, steps))
    decreases |steps|
  {
    if steps != [] {
      StepForgetsNothing(s, steps[0]);
      RunForgetsNothing(Next(s, steps[0]), steps[1..]);
    }
  }

  // No insertion, removal or reset is on its way.
  predicate KeepsRows<T>(inbox: seq<Message<T>>) {
    forall k :: 0 <= k < |inbox| && inbox[k].EventMessage? ==> inbox[k].event.DataChanged? || inbox[k].event.Move?
  }

  // The two lists then have the same length.
  lemma {:induction false} StreamKeepsLength<T>(from: seq<T>, inbox: seq<Message<T>>, to: seq<T>)
    requires Stream(from, inbox, to) && KeepsRows(inbox)
    ensures |from| == |to|
    decreases |inbox|
  {
    if inbox != [] {
      StreamKeepsLength(inbox[0].at, inbox[1..], to);
    }
  }

  /** No forgotten placeholder: in every calm run, a row a view still shows a default item for is
      covered by an outstanding request or reply, unless an event that changes the number of rows is
      on its way; so none is left when nothing is outstanding. */
  lemma NoForgottenPlaceholder<T>(list: seq<T>, steps: seq<Step<T>>, row: int)
    requires AllEnabled(Initial(list), steps) && AllCalm(Initial(list), steps)
    requires row in Unrefreshed(Run(Initial(list), steps).proxy.told)
    ensures var s := Run(Initial(list), steps);
            && (s.inbox == [] ==> s.proxy.outbox != [])
            && (KeepsRows(s.inbox) ==> 0 <= row < |s.list| && Covered(s.proxy.outbox, s.inbox, row))
  {
    RunForgetsNothing(Initial(list), steps);
    var s := Run(Initial(list), steps);
    if KeepsRows(s.inbox) {
      StreamKeepsLength(s.view, s.inbox, s.list);
    }
  }

  // ----- what is forgotten

  // A row shown by default that no reply will refresh.
  ghost predicate Forgotten<T>(p: Proxy<T>, r: int) {
    r in Unrefreshed(p.told) && r !in p.placeholders
  }

  // What one item of a reply does to row r.
  lemma ReplyItemNoticed<T>(p: Proxy<T>, i: int, item: T, r: int)
    ensures var p' := ReplyItem(p, i, item);
            && (r in Unrefreshed(p'.told) <==>
                  && r in Unrefreshed(p.told)
                  && !(r == i && r in p.placeholders && !(Has(p.cache, i) && item == Lookup(p.cache, i))))
            && (r in p'.placeholders ==> r in p.placeholders)
            && (r != i && r in p.placeholders ==> r in p'.placeholders)
  {
    NoticedInPlace(p.told, Changed(i, i));
    hide Unrefreshed, Has, Lookup, Touch, Put;
  }

  lemma {:induction false} ReplyAddsNone<T>(p: Proxy<T>, first: int, items: seq<T>, r: int)
    ensures r in Unrefreshed(HandleReply(p, first, items).told) ==> r in Unrefreshed(p.told)
    ensures Forgotten(p, r) ==> Forgotten(HandleReply(p, first, items), r)
    decreases |items|
  {
    if items != [] {
      ReplyItemNoticed(p, first, items[0], r);
      hide ReplyItem, Unrefreshed, Has, Lookup;
      ReplyAddsNone(ReplyItem(p, first, items[0]), first + 1, items[1..], r);
    }
  }

  /** A reply refreshes a row shown by default and not cached exactly when it brings the row's item
      and the row is in the proxy's list of rows requested locally. */
  lemma {:induction false} RefreshedExactlyWhenRemembered<T>(p: Proxy<T>, first: int, items: seq<T>, r: int)
    requires r in Unrefreshed(p.told) && !Has(p.cache, r)
    ensures r !in Unrefreshed(HandleReply(p, first, items).told)
            <==> first <= r < first + |items| && r in p.placeholders
    decreases |items|
  {
    if items != [] {
      var p' := ReplyItem(p, first, items[0]);
      ReplyItemNoticed(p, first, items[0], r);
      ReplyItemFinds(p, first, items[0], r);
      hide ReplyItem, Unrefreshed, Has, Lookup, DistinctKeys;
      if first == r {
        ReplyAddsNone(p', first + 1, items[1..], r);
      } else {
        RefreshedExactlyWhenRemembered(p', first + 1, items[1..], r);
      }
    }
  }

  lemma PlaceholdersAfterItem<T>(p: Proxy<T>, i: int, item: T, r: int)
    ensures r in ReplyItem(p, i, item).placeholders <==>
      (r in p.placeholders && !(r == i && !(Has(p.cache, i) && item == Lookup(p.cache, i))))
  {
    hide Touch, Put, Has, Lookup;
  }

  /** The rows requested locally that a reply brings are taken from the list, unless they were cached;
      the others stay in it. */
  lemma {:induction false} PlaceholdersAfterReply<T>(p: Proxy<T>, first: int, items: seq<T>, r: int)
    ensures var p' := HandleReply(p, first, items);
            && (!(first <= r < first + |items|) ==> (r in p'.placeholders <==> r in p.placeholders))
            && (first <= r < first + |items| && !Has(p.cache, r) ==> r !in p'.placeholders)
            && (r in p'.placeholders ==> r in p.placeholders)
    decreases |items|
  {
    if items != [] {
      var p' := ReplyItem(p, first, items[0]);
      ReplyItemFinds(p, first, items[0], r);
      PlaceholdersAfterItem(p, first, items[0], r);
      hide ReplyItem, Lookup, Has, DistinctKeys;
      PlaceholdersAfterReply(p', first + 1, items[1..], r);
    }
  }

  /** A row is shown by default after an asynchronous read exactly if that is what the read answered;
      the other rows are shown as before. */
  lemma ReadTold<T>(p: Proxy<T>, row: int, server: seq<T>, r: int)
    ensures var (p', answer) := ModelData(p, row, false, server);
            r in Unrefreshed(p'.told) <==> if r == row then answer.None? else r in Unrefreshed(p.told)
  {
    var p1 := Prefetch(Fetch(p, row, false, server), row);
    assert p1.told == Fetch(p, row, false, server).told && p1.cache == p.cache;
    assert RequestItems(p, row).told == p.told;
    hide RequestItems, Prefetch, Unrefreshed, Touch;
    UnrefreshedAppend(p.told, Placeholder(row));
    NoticedInPlace(p1.told, Item(row));
  }

  /** An event that moves a row shown by default makes the proxy forget it, unless its new place was
      requested by a view as well; an insertion makes it forget all of them. */
  lemma EventForgets<T>(p: Proxy<T>, e: Event<T>, r: int)
    requires r in Unrefreshed(p.told) && !Drops(NoticeOf(e), r)
    ensures Forgotten(HandleEvent(p, e), NewRow(NoticeOf(e), r))
        <==> e.Insert? || NewRow(NoticeOf(e), r) !in p.placeholders
  {
    EventNoticed(p, e);
  }

  // A message that does not concern row r: a reply, or an event about the items of other rows.
  predicate Elsewhere<T>(m: Message<T>, r: int) {
    m.ReplyMessage? || (m.event.DataChanged? && !(m.event.first <= r < m.event.first + |m.event.items|))
  }

  lemma AskKeepsForgotten<T>(p: Proxy<T>, row: int, server: seq<T>, r: int)
    requires Forgotten(p, r) && row != r
    ensures Forgotten(ModelData(p, row, false, server).0, r)
  {
    var p1 := Prefetch(Fetch(p, row, false, server), row);
    assert p1.told == Fetch(p, row, false, server).told && p1.placeholders == Fetch(p, row, false, server).placeholders;
    assert RequestItems(p, row).told == p.told && RequestItems(p, row).placeholders == p.placeholders;
    hide RequestItems, Prefetch, Unrefreshed;
    UnrefreshedAppend(p.told, Placeholder(row));
    NoticedInPlace(p1.told, Item(row));
  }

  lemma StepKeepsForgotten<T>(s: System<T>, step: Step<T>, r: int)
    requires Enabled(s, step) && Forgotten(s.proxy, r) && step != Ask(r)
    requires forall k :: 0 <= k < |s.inbox| ==> Elsewhere(s.inbox[k], r)
    requires step.Perform? ==> Elsewhere(EventMessage(EventOf(step.edit), []), r)
    ensures var s' := Next(s, step);
            Forgotten(s'.proxy, r) && forall k :: 0 <= k < |s'.inbox| ==> Elsewhere(s'.inbox[k], r)
  {
    match step
    case Perform(e) =>
    case Ask(row) => AskKeepsForgotten(s.proxy, row, s.list, r);
    case ServeRequest =>
    case Deliver =>
      match s.inbox[0]
      case ReplyMessage(first, items, _) => ReplyAddsNone(s.proxy, first, items, r);
      case EventMessage(e, _) => EventNoticed(s.proxy, e);
  }

  /** A forgotten row is shown by default until a view asks for it again or the server changes it:
      no request or reply in between refreshes it. */
  lemma {:induction false} ForgottenStays<T>(s: System<T>, steps: seq<Step<T>>, r: int)
    requires AllEnabled(s, steps) && Forgotten(s.proxy, r) && Ask(r) !in steps
    requires forall k :: 0 <= k < |s.inbox| ==> Elsewhere(s.inbox[k], r)
    requires forall step :: step in steps && step.Perform? ==> Elsewhere(EventMessage(EventOf(step.edit), []), r)
    ensures Forgotten(Run(s, steps).proxy, r)
    decreases |steps|
  {
    if steps != [] {
      StepKeepsForgotten(s, steps[0], r);
      ForgottenStays(Next(s, steps[0]), steps[1..], r);
    }
  }

  // ----- runs in which a row is forgotten

  lemma RunFirst<T>(s: System<T>, step: Step<T>, rest: seq<Step<T>>)
    requires Enabled(s, step) && AllEnabled(Next(s, step), rest)
    ensures AllEnabled(s, [step] + rest) && Run(s, [step] + rest) == Run(Next(s, step), rest)
  {
    assert ([step] + rest)[1..] == rest;
  }

  // Nothing is left to request once all rows are.
  lemma AllRequested<T>(p: Proxy<T>, index: int)
    requires p.size > 0 && p.requested == Range(0, p.size - 1) && 0 <= index <= p.size <= PREFETCH_ITEM_COUNT
    ensures WindowAround(p, index) == NoWindow
  {
    ScanFirstStops(p, 0);
    hide ScanFirst, ScanLast;
    assert forall i :: 0 <= i < p.size ==> p.Busy(i);
  }

  lemma WholeWindow<T>(p: Proxy<T>)
    requires 0 < p.size <= PREFETCH_ITEM_COUNT && p.cache == [] && p.requested == []
    ensures WindowAround(p, p.size - 1) == Window(0, p.size - 1)
  {
    assert !p.Busy(0) && !p.Busy(p.size - 1);
  }

  lemma FirstFetch<T>(p: Proxy<T>, server: seq<T>)
    requires 0 < p.size <= PREFETCH_ITEM_COUNT && p == Proxy(p.size, [], [], [], [], [])
    ensures var row := p.size - 1;
            Fetch(p, row, false, server) == Proxy(p.size, [], Range(0, row), [row], [(0, row)], [Placeholder(row)])
  {
    hide WindowAround;
    WholeWindow(p);
    assert [] + Range(0, p.size - 1) == Range(0, p.size - 1);
  }

  lemma NoPrefetch<T>(p: Proxy<T>, row: int)
    requires p.size > 0 && p.requested == Range(0, p.size - 1) && 0 <= row < p.size <= PREFETCH_ITEM_COUNT
    ensures Prefetch(p, row) == p
  {
    hide WindowAround;
    AllRequested(p, p.size);
    AllRequested(p, 0);
  }

  // A view asks for the last row of a short list that the proxy knows nothing of.
  lemma FirstAsk<T>(list: seq<T>)
    requires 1 <= |list| <= PREFETCH_ITEM_COUNT
    ensures var s, row := Next(Initial(list), Ask(|list| - 1)), |list| - 1;
            && s.proxy == Proxy(|list|, [], Range(0, row), [row], [(0, row)], [Placeholder(row)])
            && s.list == s.view == list && s.inbox == []
  {
    hide Fetch, Prefetch, Range;
    FirstFetch(Initial(list).proxy, list);
    NoPrefetch(Fetch(Initial(list).proxy, |list| - 1, false, list), |list| - 1);
  }

  // The remaining steps: the server edits its list, serves the request, and both messages arrive.
  function EditAndServe<T>(e: Edit<T>): seq<Step<T>> {
    [Perform(e), ServeRequest, Deliver, Deliver]
  }

  // After the row was asked for, the edit's event arrives before the reply to the request.
  lemma AfterEditAndServe<T>(s: System<T>, e: Edit<T>, last: int)
    requires s.proxy.outbox == [(0, last)] && s.inbox == [] && e.InRange(|s.list|)
    ensures AllEnabled(s, EditAndServe(e))
    ensures var list := ApplyEdit(s.list, e);
            var p := HandleEvent(s.proxy.(outbox := []), EventOf(e));
            Run(s, EditAndServe(e)) == System(list, HandleReply(p, 0, Serve(list, 0, last).1), [], list)
  {
    hide ApplyEdit, HandleReply, HandleEvent;
    var steps := EditAndServe(e);
    var s1 := Next(s, steps[0]);
    var s2 := Next(s1, steps[1]);
    assert s2.inbox == [EventMessage(EventOf(e), s1.list), ReplyMessage(0, Serve(s1.list, 0, last).1, s1.list)];
    var s3 := Next(s2, steps[2]);
    RunFirst(s3, steps[3], []);
    RunFirst(s2, steps[2], [steps[3]]);
    RunFirst(s1, steps[1], [steps[2], steps[3]]);
    RunFirst(s, steps[0], [steps[1], steps[2], steps[3]]);
    assert steps == [steps[0]] + [steps[1], steps[2], steps[3]];
  }

  lemma SingleReplyCached<T>(p: Proxy<T>, item: T)
    requires p.cache == []
    ensures Has(HandleReply(p, 0, [item]).cache, 0)
  {
    assert HandleReply(p, 0, [item]) == ReplyItem(p, 0, item);
  }

  // The event of such a run, for the proxy
  lemma ForgottenByEvent<T>(p: Proxy<T>, e: Event<T>, row: int)
    requires p.told == [Placeholder(row)] && p.placeholders == [row] && p.cache == [] && !e.DataChanged?
    requires !Drops(NoticeOf(e), row) && (e.Insert? || NewRow(NoticeOf(e), row) != row)
    ensures var q := HandleEvent(p, e);
            q.outbox == p.outbox && q.cache == [] && Forgotten(q, NewRow(NoticeOf(e), row))
  {
    UnrefreshedAppend([], Placeholder(row));
    assert [] + [Placeholder(row)] == p.told;
    EventForgets(p, e, row);
  }

  // And the reply
  lemma ForgottenByProxy<T>(p: Proxy<T>, e: Event<T>, row: int, items: seq<T>)
    requires p.told == [Placeholder(row)] && p.placeholders == [row] && p.cache == [] && !e.DataChanged?
    requires !Drops(NoticeOf(e), row) && (e.Insert? || NewRow(NoticeOf(e), row) != row)
    ensures var p' := HandleReply(HandleEvent(p, e), 0, items);
            && p'.outbox == p.outbox && NewRow(NoticeOf(e), row) in Unrefreshed(p'.told)
            && (|items| == 1 ==> Has(p'.cache, 0))
  {
    ForgottenByEvent(p, e, row);
    hide HandleEvent, HandleReply, NewRow, Drops, Unrefreshed, Has;
    var q := HandleEvent(p, e);
    ReplyAddsNone(q, 0, items, NewRow(NoticeOf(e), row));
    ReplyKeepsOutbox(q, 0, items);
    if |items| == 1 {
      assert items == [items[0]];
      SingleReplyCached(q, items[0]);
    }
  }

  // The row asked for, at its new place, is still shown by default afterwards.
  lemma ForgottenInRun<T>(list: seq<T>, e: Edit<T>)
    requires 1 <= |list| <= PREFETCH_ITEM_COUNT && e.InRange(|list|) && e.Structural()
    requires !Drops(NoticeOf(EventOf(e)), |list| - 1)
    requires e.InsertItems? || NewRow(NoticeOf(EventOf(e)), |list| - 1) != |list| - 1
    ensures var steps := [Ask(|list| - 1)] + EditAndServe(e);
            && AllEnabled(Initial(list), steps)
            && var s := Run(Initial(list), steps);
               && s.list == ApplyEdit(list, e) && s.proxy.outbox == [] && s.inbox == []
               && NewRow(NoticeOf(EventOf(e)), |list| - 1) in Unrefreshed(s.proxy.told)
               && (|Serve(s.list, 0, |list| - 1).1| == 1 ==> Has(s.proxy.cache, 0))
  {
    var row := |list| - 1;
    var s := Next(Initial(list), Ask(row));
    FirstAsk(list);
    AfterEditAndServe(s, e, row);
    RunFirst(Initial(list), Ask(row), EditAndServe(e));
    hide Next, Run, AllEnabled, EditAndServe, ApplyEdit, Serve, HandleReply, HandleEvent, Unrefreshed, Range;
    ForgottenByProxy(s.proxy.(outbox := []), EventOf(e), row, Serve(ApplyEdit(list, e), 0, row).1);
  }

  /** A row is inserted behind the one row of a list, which a view has just asked for: the row's item
      arrives and is cached, nothing is outstanding, and the view still shows a default item. */
  lemma InsertionForgetsPlaceholders<T>(a: T, b: T)
    ensures var steps := [Ask(0)] + EditAndServe(InsertItems(1, [b]));
            && AllEnabled(Initial([a]), steps)
            && var s := Run(Initial([a]), steps);
               && s.list == [a, b] && s.proxy.outbox == [] && s.inbox == []
               && Has(s.proxy.cache, 0) && 0 in Unrefreshed(s.proxy.told)
  {
    ForgottenInRun([a], InsertItems(1, [b]));
    assert ApplyEdit([a], InsertItems(1, [b])) == [a, b];
    hide Run, AllEnabled, EditAndServe, Unrefreshed;
  }

  /** A removal in front of a row that a view has just asked for does the same. */
  lemma RemovalForgetsPlaceholders<T>(a: T, b: T)
    ensures var steps := [Ask(1)] + EditAndServe(RemoveItems(0, 0));
            && AllEnabled(Initial([a, b]), steps)
            && var s := Run(Initial([a, b]), steps);
               && s.list == [b] && s.proxy.outbox == [] && s.inbox == []
               && Has(s.proxy.cache, 0) && 0 in Unrefreshed(s.proxy.told)
  {
    ForgottenInRun([a, b], RemoveItems(0, 0));
    assert ApplyEdit([a, b], RemoveItems(0, 0)) == [b];
    hide Run, AllEnabled, EditAndServe, Unrefreshed;
  }
}
