/**
 Signal-time consistency: when a client raises a signal or change notification, do its properties
 have the values the server had when it sent it?
 */
module SignalTime {

  import opened PropertyReplication
  import opened ReplicationRuns

  // From value v on, each message leaves a registered client with the value at its sending time.
  ghost predicate InStep<V>(v: V, registered: bool, inbox: seq<Message<V>>, i: nat)
    decreases |inbox|
  {
    inbox == [] ||
    var m := inbox[0];
    var v', registered' := Mention(m, i).GetOr(v), registered || m.isSnapshot;
    && i < |m.at|
    && (registered' ==> v' == m.at[i])
    && InStep(v', registered', inbox[1..], i)
  }

  // What a client with a snapshot raised was the signal sent, at the value it was sent with.
  ghost predicate RaisedInStep<V>(raised: seq<Raise<V>>, i: nat) {
    forall k :: 0 <= k < |raised| && raised[k].registered ==>
      && i < |raised[k].values| && i < |raised[k].sentAt| && raised[k].values[i] == raised[k].sentAt[i]
      && raised[k].signal == raised[k].sentSignal
  }

  // Each message was encoded against the values of the one before, the last one's are the copy.
  ghost predicate Chained<V>(inbox: seq<Message<V>>, previous: V, i: nat) {
    && (forall k :: 0 <= k < |inbox| ==> i < |inbox[k].before| && i < |inbox[k].at|)
    && (forall k :: 0 < k < |inbox| ==> inbox[k].before[i] == inbox[k - 1].at[i])
    && (inbox != [] ==> inbox[|inbox| - 1].at[i] == previous)
  }

  ghost predicate ClientInOrder<V>(c: Client<V>, previous: V, i: nat) {
    && i < |c.values|
    && InStep(c.values[i], c.registered, c.inbox, i)
    && RaisedInStep(c.raised, i)
    && Chained(c.inbox, previous, i)
  }

  ghost predicate InOrder<V>(s: System<V>, i: nat) {
    && Replicated(s, i)
    && forall c :: 0 <= c < |s.clients| ==> ClientInOrder(s.clients[c], s.server.previous[i], i)
  }

  // What a client makes of its whole inbox.
  ghost function DeliverAll<V>(kinds: seq<PropertyKind>, c: Client<V>): Client<V>
    requires |c.values| == |kinds|
    decreases |c.inbox|
  {
    if c.inbox == [] then c else DeliverAll(kinds, Receive(kinds, c, c.inbox[0]).(inbox := c.inbox[1..]))
  }

  // One message raises its signal with the value i has then.
  lemma ReceiveRaises<V>(kinds: seq<PropertyKind>, c: Client<V>, m: Message<V>, i: nat)
    requires |c.values| == |kinds| && i < |kinds| && !kinds[i].Model? && Genuine(m, kinds)
    ensures var c' := Receive(kinds, c, m);
            && |c'.values| == |kinds| && c'.values[i] == Mention(m, i).GetOr(c.values[i])
            && c'.registered == (c.registered || m.isSnapshot) && c'.inbox == c.inbox
            && (RaisedInStep(c'.raised, i) <==>
                  RaisedInStep(c.raised, i) && (c'.registered ==> c'.values[i] == m.at[i]))
  {
    var c' := Receive(kinds, c, m);
    ReceiveMention(kinds, c, m, i);
    hide Decode, Encode, Mention, Genuine;
    var last := Raise(c'.registered, c'.values, m.sent, m.at, m.sent);
    assert c'.raised == c.raised + [last];
    if RaisedInStep(c'.raised, i) {
      assert c'.raised[|c.raised|] == last;
      forall k | 0 <= k < |c.raised|
        ensures c'.raised[k] == c.raised[k]
      {
      }
    }
  }

  /** Delivering an inbox raises everything in step exactly when the inbox is in step. */
  lemma {:induction false} InStepRaises<V>(kinds: seq<PropertyKind>, c: Client<V>, i: nat)
    requires |c.values| == |kinds| && i < |kinds| && !kinds[i].Model?
    requires forall k :: 0 <= k < |c.inbox| ==> Genuine(c.inbox[k], kinds)
    ensures RaisedInStep(DeliverAll(kinds, c).raised, i)
            <==> RaisedInStep(c.raised, i) && InStep(c.values[i], c.registered, c.inbox, i)
    decreases |c.inbox|
  {
    if c.inbox != [] {
      ReceiveRaises(kinds, c, c.inbox[0], i);
      assert i < |c.inbox[0].at|;
      hide Receive, Mention, Genuine, RaisedInStep;
      InStepRaises(kinds, Receive(kinds, c, c.inbox[0]).(inbox := c.inbox[1..]), i);
    }
  }

  lemma {:induction false} InStepAppend<V>(v: V, registered: bool, inbox: seq<Message<V>>, m: Message<V>, i: nat)
    requires InStep(v, registered, inbox, i) && i < |m.at|
    requires registered || m.isSnapshot || (exists k :: 0 <= k < |inbox| && inbox[k].isSnapshot) ==>
               Mention(m, i).GetOr(Drained(v, inbox, i)) == m.at[i]
    ensures InStep(v, registered, inbox + [m], i)
    decreases |inbox|
  {
    if inbox == [] {
      assert inbox + [m] == [m];
    } else {
      assert (inbox + [m])[1..] == inbox[1..] + [m];
      if k :| 0 <= k < |inbox[1..]| && inbox[1..][k].isSnapshot {
        assert inbox[k + 1].isSnapshot;
      }
      InStepAppend(Mention(inbox[0], i).GetOr(v), registered || inbox[0].isSnapshot, inbox[1..], m, i);
    }
  }

  /** A value put before an inbox is in step exactly when the oldest message carries its own value
      or was sent at this one: all that follow then are. */
  lemma {:induction false} OldestDecides<V>(v: V, inbox: seq<Message<V>>, previous: V, i: nat)
    requires Chained(inbox, previous, i)
    ensures InStep(v, true, inbox, i) <==> inbox == [] || Mention(inbox[0], i).Some? || inbox[0].at[i] == v
    decreases |inbox|
  {
    if inbox != [] {
      OldestDecides(inbox[0].at[i], inbox[1..], previous, i);
      assert |inbox| > 1 ==> inbox[1].before[i] == inbox[0].at[i];
    }
  }

  /** A blocking snapshot is punctual for property i when the oldest message it overtakes carries
      the property, or was sent at the server's present value. */
  predicate Punctual<V(==)>(s: System<V>, step: Step<V>, i: nat)
    requires IsTracked(s, i) && Enabled(s, step)
  {
    step.BlockingGet? ==>
      var inbox := s.clients[step.client].inbox;
      inbox == [] || Mention(inbox[0], i).Some? || (i < |inbox[0].at| && inbox[0].at[i] == s.server.current[i])
  }

  lemma SignalInOrder<V>(c: Client<V>, s: Server<V>, id: nat, arguments: seq<V>, i: nat)
    requires s.Valid() && i < |s.kinds| && Follows(s.kinds, c, s.previous[i], i) && ClientInOrder(c, s.previous[i], i)
    ensures ClientInOrder(c.(inbox := c.inbox + [SignalMessage(s, id, arguments)]), s.current[i], i)
  {
    hide Encode, SignalTokens;
    InStepAppend(c.values[i], c.registered, c.inbox, SignalMessage(s, id, arguments), i);
  }

  lemma ReplyInOrder<V>(c: Client<V>, s: Server<V>, i: nat)
    requires s.Valid() && i < |s.kinds| && s.previous[i] == s.current[i] && ClientInOrder(c, s.previous[i], i)
    ensures ClientInOrder(c.(inbox := c.inbox + [Snapshot(s)]), s.previous[i], i)
  {
    hide Encode;
    InStepAppend(c.values[i], c.registered, c.inbox, Snapshot(s), i);
  }

  lemma ChainedTail<V>(inbox: seq<Message<V>>, previous: V, i: nat)
    requires inbox != [] && Chained(inbox, previous, i)
    ensures i < |inbox[0].at| && Chained(inbox[1..], previous, i)
  {
  }

  lemma DeliveryInOrder<V>(kinds: seq<PropertyKind>, c: Client<V>, previous: V, i: nat)
    requires Follows(kinds, c, previous, i) && !kinds[i].Model? && c.inbox != []
    requires ClientInOrder(c, previous, i)
    ensures ClientInOrder(Receive(kinds, c, c.inbox[0]).(inbox := c.inbox[1..]), previous, i)
  {
    ReceiveRaises(kinds, c, c.inbox[0], i);
    ChainedTail(c.inbox, previous, i);
    hide Receive, Genuine, Mention, RaisedInStep, Chained, Drained, HasSnapshot;
  }

  lemma BlockingReplyInOrder<V>(c: Client<V>, s: Server<V>, i: nat)
    requires s.Valid() && i < |s.kinds| && !s.kinds[i].Model? && |c.values| == |s.kinds|
    requires ClientInOrder(c, s.previous[i], i)
    ensures var c' := Receive(s.kinds, c, Snapshot(s));
            && c'.registered && c'.values[i] == s.current[i] && c'.inbox == c.inbox && RaisedInStep(c'.raised, i)
            && (ClientInOrder(c', s.previous[i], i)
                <==> c.inbox == [] || Mention(c.inbox[0], i).Some? || c.inbox[0].at[i] == s.current[i])
  {
    SentIsGenuine(s, 0, []);
    ReceiveRaises(s.kinds, c, Snapshot(s), i);
    hide Receive, Genuine, Encode, RaisedInStep;
    OldestDecides(s.current[i], c.inbox, s.previous[i], i);
  }

  lemma StepInOrder<V>(s: System<V>, step: Step<V>, i: nat)
    requires InOrder(s, i) && Enabled(s, step) && Announced(s, step, i) && Punctual(s, step, i)
    ensures InOrder(Next(s, step), i)
  {
    StepReplicates(s, step, i);
    hide ClientInOrder, Follows, Encode, Decode;
    match step
    case Change(_, _) =>
    case Emit(id, arguments) =>
      forall c | 0 <= c < |s.clients|
        ensures ClientInOrder(s.clients[c].(inbox := s.clients[c].inbox + [SignalMessage(s.server, id, arguments)]),
                              s.server.current[i], i)
      {
        SignalInOrder(s.clients[c], s.server, id, arguments, i);
      }
    case AsyncGet(c) =>
      ConnectInOrder(s, i);
      ReplyInOrder(s.clients[c], Connect(s.server), i);
    case BlockingGet(c) => BlockingInOrder(s, c, i);
    case Deliver(c) => DeliveryInOrder(s.server.kinds, s.clients[c], s.server.previous[i], i);
  }

  // Before the signals are connected there are no messages; so the previous copies may be set.
  lemma ConnectInOrder<V>(s: System<V>, i: nat)
    requires InOrder(s, i)
    ensures forall c :: 0 <= c < |s.clients| ==> ClientInOrder(s.clients[c], Connect(s.server).previous[i], i)
  {
    forall c | 0 <= c < |s.clients|
      ensures ClientInOrder(s.clients[c], Connect(s.server).previous[i], i)
    {
      assert ClientInOrder(s.clients[c], s.server.previous[i], i);
    }
  }

  // A blocking snapshot keeps the order exactly when it is punctual.
  lemma BlockingInOrder<V>(s: System<V>, c: nat, i: nat)
    requires InOrder(s, i) && c < |s.clients| && Announced(s, BlockingGet(c), i)
    ensures InOrder(Next(s, BlockingGet(c)), i) <==> Punctual(s, BlockingGet(c), i)
  {
    var s' := Next(s, BlockingGet(c));
    StepReplicates(s, BlockingGet(c), i);
    ConnectInOrder(s, i);
    BlockingReplyInOrder(s.clients[c], Connect(s.server), i);
    assert InOrder(s', i) ==> ClientInOrder(s'.clients[c], s'.server.previous[i], i);
    assert ClientInOrder(s.clients[c], s.server.previous[i], i);
    hide Encode, Decode, Receive, InStep, RaisedInStep, Genuine;
  }

  /** Its client then raises what is queued as it was sent exactly when it is. */
  lemma BlockingRaises<V>(s: System<V>, c: nat, i: nat)
    requires InOrder(s, i) && c < |s.clients|
    ensures var s' := Next(s, BlockingGet(c));
            RaisedInStep(DeliverAll(s'.server.kinds, s'.clients[c]).raised, i) <==> Punctual(s, BlockingGet(c), i)
  {
    var s' := Next(s, BlockingGet(c));
    ConnectInOrder(s, i);
    BlockingReplyInOrder(s.clients[c], Connect(s.server), i);
    OldestDecides(s.server.current[i], s.clients[c].inbox, Connect(s.server).previous[i], i);
    assert Follows(s.server.kinds, s.clients[c], s.server.previous[i], i);
    InStepRaises(s'.server.kinds, s'.clients[c], i);
    hide Encode, Decode, Receive, InStep, RaisedInStep, DeliverAll, Genuine;
  }

  predicate AllPunctual<V(==)>(s: System<V>, steps: seq<Step<V>>, i: nat)
    requires IsTracked(s, i) && AllEnabled(s, steps)
    decreases |steps|
  {
    steps == [] || (Punctual(s, steps[0], i) && AllPunctual(Next(s, steps[0]), steps[1..], i))
  }

  lemma {:induction false} RunInOrder<V>(s: System<V>, steps: seq<Step<V>>, i: nat)
    requires InOrder(s, i) && AllEnabled(s, steps) && AllAnnounced(s, steps, i) && AllPunctual(s, steps, i)
    ensures InOrder(Run(s, steps), i)
    decreases |steps|
  {
    if steps != [] {
      StepInOrder(s, steps[0], i);
      RunInOrder(Next(s, steps[0]), steps[1..], i);
    }
  }

  /** Signal-time consistency: whenever a client that has its snapshot raises a signal or change
      notification, it is the one sent and its property equals the server's at the sending time, in
      every run whose snapshots are announced and whose blocking ones are punctual. */
  lemma SignalTimeConsistency<V>(s: System<V>, steps: seq<Step<V>>, c: nat, k: nat, i: nat)
    requires Initial(s) && IsTracked(s, i)
    requires AllEnabled(s, steps) && AllAnnounced(s, steps, i) && AllPunctual(s, steps, i)
    requires c < |s.clients| && k < |Run(s, steps).clients[c].raised|
    requires Run(s, steps).clients[c].raised[k].registered
    ensures var r := Run(s, steps).clients[c].raised[k];
            && i < |r.values| && i < |r.sentAt| && r.values[i] == r.sentAt[i]
            && r.signal == r.sentSignal
  {
    RunInOrder(s, steps, i);
  }

  /** And exactly in those: once such a run goes on with a blocking snapshot, the signals it
      overtakes are raised with the values they were sent with if and only if it is punctual. */
  lemma ConsistentExactlyWhenPunctual<V>(s: System<V>, steps: seq<Step<V>>, c: nat, i: nat)
    requires Initial(s) && IsTracked(s, i) && c < |s.clients|
    requires AllEnabled(s, steps) && AllAnnounced(s, steps, i) && AllPunctual(s, steps, i)
    ensures var s' := Next(Run(s, steps), BlockingGet(c));
            RaisedInStep(DeliverAll(s'.server.kinds, s'.clients[c]).raised, i)
            <==> Punctual(Run(s, steps), BlockingGet(c), i)
  {
    RunInOrder(s, steps, i);
    BlockingRaises(Run(s, steps), c, i);
  }

  // ----- clients that have no snapshot yet

  // From entry n on, what was raised was the signal sent, at the value it was sent with.
  ghost predicate RaisedFrom<V>(raised: seq<Raise<V>>, n: nat, i: nat) {
    forall k :: n <= k < |raised| ==>
      && i < |raised[k].values| && i < |raised[k].sentAt| && raised[k].values[i] == raised[k].sentAt[i]
      && raised[k].signal == raised[k].sentSignal
  }

  lemma RaisedFromFirst<V>(raised: seq<Raise<V>>, n: nat, i: nat)
    requires n < |raised| && i < |raised[n].values| && i < |raised[n].sentAt|
    requires raised[n].signal == raised[n].sentSignal
    ensures RaisedFrom(raised, n, i)
            <==> raised[n].values[i] == raised[n].sentAt[i] && RaisedFrom(raised, n + 1, i)
  {
  }

  /** Registered or not, a client raises its inbox in step exactly when a registered one would. */
  lemma {:induction false} QueueRaises<V>(kinds: seq<PropertyKind>, c: Client<V>, i: nat)
    requires |c.values| == |kinds| && i < |kinds| && !kinds[i].Model?
    requires forall k :: 0 <= k < |c.inbox| ==> Genuine(c.inbox[k], kinds)
    ensures c.raised <= DeliverAll(kinds, c).raised
    ensures RaisedFrom(DeliverAll(kinds, c).raised, |c.raised|, i) <==> InStep(c.values[i], true, c.inbox, i)
    decreases |c.inbox|
  {
    if c.inbox != [] {
      var m := c.inbox[0];
      var c' := Receive(kinds, c, m).(inbox := c.inbox[1..]);
      ReceiveMention(kinds, c, m, i);
      assert |c'.values| == |kinds| && i < |m.at| && |m.at| == |kinds|;
      hide Receive, Mention, Genuine, RaisedFrom;
      QueueRaises(kinds, c', i);
      var raised := DeliverAll(kinds, c').raised;
      assert raised[|c.raised|] == c'.raised[|c.raised|];
      RaisedFromFirst(raised, |c.raised|, i);
    }
  }

  /** In the runs above, any client, also one that has no snapshot yet, raises all that is queued as
      it was sent if and only if the oldest message carries the property or was sent at the value the
      client has. */
  lemma QueueRaisedExactlyWhen<V>(s: System<V>, steps: seq<Step<V>>, c: nat, i: nat)
    requires Initial(s) && IsTracked(s, i) && c < |s.clients|
    requires AllEnabled(s, steps) && AllAnnounced(s, steps, i) && AllPunctual(s, steps, i)
    ensures var client := Run(s, steps).clients[c];
            RaisedFrom(DeliverAll(s.server.kinds, client).raised, |client.raised|, i)
            <==> client.inbox == [] || Mention(client.inbox[0], i).Some?
                 || (i < |client.inbox[0].at| && client.inbox[0].at[i] == client.values[i])
  {
    RunInOrder(s, steps, i);
    var s' := Run(s, steps);
    hide Run, AllEnabled, AllAnnounced, AllPunctual;
    assert Follows(s'.server.kinds, s'.clients[c], s'.server.previous[i], i);
    assert ClientInOrder(s'.clients[c], s'.server.previous[i], i);
    hide RaisedFrom, DeliverAll, InStep, Genuine, Mention;
    QueueRaises(s'.server.kinds, s'.clients[c], i);
    OldestDecides(s'.clients[c].values[i], s'.clients[c].inbox, s'.server.previous[i], i);
  }

  // ----- runs in which a signal is raised with another value

  lemma RunFirst<V>(s: System<V>, step: Step<V>, rest: seq<Step<V>>)
    requires WellFormed(s) && Enabled(s, step) && AllEnabled(Next(s, step), rest)
    ensures AllEnabled(s, [step] + rest) && Run(s, [step] + rest) == Run(Next(s, step), rest)
  {
    assert ([step] + rest)[1..] == rest;
  }

  // The first client connects the signals, a property changes, and the second client has no snapshot.
  function EarlySignal(): seq<Step<int>> {
    [AsyncGet(0), Change(0, 1), Emit(0, []), Deliver(1)]
  }

  lemma AfterEarlySignal(s: System<int>, client: Client<int>)
    requires client == Client(0, [0, 0], false, [], [])
    requires s == System(Server([Ordinary, Ordinary], [0, 7], [0, 0], false), [client, client])
    ensures Initial(s) && AllEnabled(s, EarlySignal())
    ensures var m := SignalMessage(Server([Ordinary, Ordinary], [1, 7], [0, 7], true), 0, []);
            Run(s, EarlySignal()).clients[1] == Receive(s.server.kinds, client, m)
  {
    hide Snapshot, SignalMessage, Receive, Drained, Mention, Encode;
    var steps := EarlySignal();
    var s1 := Next(s, steps[0]);
    assert s1.server == Server([Ordinary, Ordinary], [0, 7], [0, 7], true) && s1.clients[1] == client;
    var s2 := Next(s1, steps[1]);
    assert s2.server == Server([Ordinary, Ordinary], [1, 7], [0, 7], true) && s2.clients[1] == client;
    var s3 := Next(s2, steps[2]);
    var m := SignalMessage(s2.server, 0, []);
    assert s3.clients[1] == client.(inbox := [m]);
    InboxKept(s.server.kinds, client, [m], m);
    assert Next(s3, steps[3]).clients[1] == Receive(s.server.kinds, client, m);
    hide Next, Connect;
    RunFirst(s3, steps[3], []);
    RunFirst(s2, steps[2], [steps[3]]);
    RunFirst(s1, steps[1], [steps[2], steps[3]]);
    RunFirst(s, steps[0], [steps[1], steps[2], steps[3]]);
    assert steps == [steps[0]] + [steps[1], steps[2], steps[3]];
  }

  lemma InboxKept<V>(kinds: seq<PropertyKind>, c: Client<V>, inbox: seq<Message<V>>, m: Message<V>)
    requires |c.values| == |kinds|
    ensures Receive(kinds, c.(inbox := inbox), m).(inbox := c.inbox) == Receive(kinds, c, m)
  {
  }

  /** A client that has no snapshot yet raises a signal that was sent when the second property was
      7 while it holds 0, without any blocking snapshot. */
  lemma EarlySignalRaised(s: System<int>, client: Client<int>)
    requires client == Client(0, [0, 0], false, [], [])
    requires s == System(Server([Ordinary, Ordinary], [0, 7], [0, 0], false), [client, client])
    ensures Initial(s) && AllEnabled(s, EarlySignal())
    ensures var raised := Run(s, EarlySignal()).clients[1].raised;
            |raised| == 1 && !raised[0].registered && raised[0].values == [1, 0] && raised[0].sentAt == [1, 7]
  {
    AfterEarlySignal(s, client);
    var server := Server([Ordinary, Ordinary], [1, 7], [0, 7], true);
    var m := SignalMessage(server, 0, []);
    SentIsGenuine(server, 0, []);
    ReceiveMention(server.kinds, client, m, 0);
    ReceiveMention(server.kinds, client, m, 1);
    assert Receive(server.kinds, client, m).values == [1, 0];
    hide Run, AllEnabled, EarlySignal, Encode, Decode, Genuine;
  }

  // A first client connects the signals; then two properties change, each with its signal.
  function TwoChanges(): seq<Step<int>> {
    [AsyncGet(0), Change(0, 1), Emit(0, []), Change(1, 1), Emit(1, [])]
  }

  function TwoClients(): System<int> {
    var client := Client(0, [0, 0], false, [], []);
    System(Server([Ordinary, Ordinary], [0, 0], [0, 0], false), [client, client])
  }

  lemma AfterTwoChanges()
    ensures Initial(TwoClients()) && AllEnabled(TwoClients(), TwoChanges())
    ensures var s := Run(TwoClients(), TwoChanges());
            && s.server == Server([Ordinary, Ordinary], [1, 1], [1, 1], true) && |s.clients| == 2
            && s.clients[1] == Client(0, [0, 0], false,
                 [SignalMessage(Server([Ordinary, Ordinary], [1, 0], [0, 0], true), 0, []),
                  SignalMessage(Server([Ordinary, Ordinary], [1, 1], [1, 0], true), 1, [])], [])
  {
    hide Encode, SignalTokens;
    var s0, steps := TwoClients(), TwoChanges();
    var s1 := Next(s0, steps[0]);
    assert s1.server == Server([Ordinary, Ordinary], [0, 0], [0, 0], true);
    var s2 := Next(s1, steps[1]);
    assert s2.server.current == [1, 0];
    var s3 := Next(s2, steps[2]);
    assert s3.server.previous == [1, 0];
    var s4 := Next(s3, steps[3]);
    assert s4.server.current == [1, 1];
    var s5 := Next(s4, steps[4]);
    assert s5.server.previous == [1, 1];
    RunFirst(s4, steps[4], []);
    RunFirst(s3, steps[3], [steps[4]]);
    RunFirst(s2, steps[2], [steps[3], steps[4]]);
    RunFirst(s1, steps[1], [steps[2], steps[3], steps[4]]);
    RunFirst(s0, steps[0], [steps[1], steps[2], steps[3], steps[4]]);
    assert steps == [steps[0]] + [steps[1], steps[2], steps[3], steps[4]];
  }

  // What a client makes of a snapshot at [1, 1] followed by the signal sent at [1, 0].
  lemma LateSignalRaised(c: Client<int>, server: Server<int>, m: Message<int>)
    requires server == Server([Ordinary, Ordinary], [1, 1], [1, 1], true) && |c.values| == 2 && c.raised == []
    requires m == SignalMessage(Server([Ordinary, Ordinary], [1, 0], [0, 0], true), 0, [])
    ensures var raised := Receive(server.kinds, Receive(server.kinds, c, Snapshot(server)), m).raised;
            |raised| == 2 && raised[1].registered && raised[1].values == [1, 1] && raised[1].sentAt == [1, 0]
  {
    var c' := Receive(server.kinds, c, Snapshot(server));
    SentIsGenuine(server, 0, []);
    SentIsGenuine(Server([Ordinary, Ordinary], [1, 0], [0, 0], true), 0, []);
    ReceiveMention(server.kinds, c, Snapshot(server), 0);
    ReceiveMention(server.kinds, c, Snapshot(server), 1);
    ReceiveMention(server.kinds, c', m, 0);
    ReceiveMention(server.kinds, c', m, 1);
    hide Encode, Decode, Genuine;
    assert c'.values == [1, 1];
  }

  // The second client's snapshot overtakes the two signals in its inbox.
  lemma SecondSnapshot(s: System<int>, m: Message<int>)
    requires s.server == Server([Ordinary, Ordinary], [1, 1], [1, 1], true) && WellFormed(s) && |s.clients| == 2
    requires m == SignalMessage(Server([Ordinary, Ordinary], [1, 0], [0, 0], true), 0, [])
    requires s.clients[1].inbox != [] && s.clients[1].inbox[0] == m && s.clients[1].raised == []
    ensures IsTracked(s, 1) && Announced(s, BlockingGet(1), 1) && !Punctual(s, BlockingGet(1), 1)
    ensures var raised := Next(Next(s, BlockingGet(1)), Deliver(1)).clients[1].raised;
            |raised| == 2 && raised[1].registered && raised[1].values == [1, 1] && raised[1].sentAt == [1, 0]
  {
    LateSignalRaised(s.clients[1], s.server, m);
    assert Mention(m, 1).None? && m.at[1] == 0;
    hide Receive, SignalMessage, Snapshot, Mention;
  }

  /** Such a snapshot exists: the second client's first one overtakes both signals, and the client
      raises the first signal with a second property that is newer than the signal. */
  lemma OvertakingBreaksSignalTime()
    ensures Initial(TwoClients()) && AllEnabled(TwoClients(), TwoChanges())
    ensures var s := Run(TwoClients(), TwoChanges());
            && IsTracked(s, 1) && Enabled(s, BlockingGet(1)) && Announced(s, BlockingGet(1), 1)
            && !Punctual(s, BlockingGet(1), 1)
            && var raised := Next(Next(s, BlockingGet(1)), Deliver(1)).clients[1].raised;
               |raised| == 2 && raised[1].registered && raised[1].values == [1, 1] && raised[1].sentAt == [1, 0]
  {
    AfterTwoChanges();
    var s := Run(TwoClients(), TwoChanges());
    hide *;
    SecondSnapshot(s, s.clients[1].inbox[0]);
  }
}
