/**
 Runs of a service adapter and any number of proxies.  Every proxy has one first-in first-out
 inbox; an asynchronous GetAllProperties reply goes through it, a blocking one overtakes it.

 All results are about one property `i` that has a copy of the value last sent (a list model has
 none): they hold for a property whatever becomes of the others.
 */
module ReplicationRuns {

  import opened Wrappers
  import opened PropertyReplication

  // A signal's identifier and arguments; none with a snapshot
  type Signalled<V> = Option<(nat, seq<V>)>

  /** A message with, as history variables, the previous values it was encoded against, and the
      server's values and the signal when it was sent. */
  datatype Message<V> = Message(isSnapshot: bool, payload: Payload<V>, before: seq<V>, at: seq<V>, sent: Signalled<V>)

  // A notification raised by a proxy: its values and the signal it reads then, and the sender's.
  datatype Raise<V> = Raise(registered: bool, values: seq<V>, signal: Signalled<V>, sentAt: seq<V>,
                            sentSignal: Signalled<V>)

  datatype Client<V> = Client(
    zero: V,                   // what reads past the end of a payload give
    values: seq<V>,
    registered: bool,          // a snapshot has been received
    inbox: seq<Message<V>>,
    raised: seq<Raise<V>>)

  datatype System<V> = System(server: Server<V>, clients: seq<Client<V>>)

  datatype Step<V> =
    | Change(property: nat, value: V)   // the service changes a property, without a signal yet
    | Emit(id: nat, arguments: seq<V>)  // the service emits a signal
    | AsyncGet(client: nat)             // the server handles an asynchronous GetAllProperties
    | BlockingGet(client: nat)          // a blocking GetAllProperties
    | Deliver(client: nat)

  function Snapshot<V(==)>(s: Server<V>): Message<V>
    requires s.Valid()
  {
    Message(true, Encode(s.kinds, s.previous, s.current, true), s.previous, s.current, None)
  }

  function SignalMessage<V(==)>(s: Server<V>, id: nat, arguments: seq<V>): Message<V>
    requires s.Valid()
  {
    Message(false, SignalPayload(s, id, arguments), s.previous, s.current, Some((id, arguments)))
  }

  // onSignalTriggered() and the handler of the GetAllProperties reply
  function Receive<V(==)>(kinds: seq<PropertyKind>, c: Client<V>, m: Message<V>): (c': Client<V>)
    requires |c.values| == |kinds|
    ensures |c'.values| == |kinds|
  {
    var decoded := Decode(kinds, c.values, m.payload, m.isSnapshot, c.zero);
    var registered := c.registered || m.isSnapshot;
    var signal := if m.isSnapshot then None else Some(ReadSignal(decoded.rest, c.zero));
    c.(values := decoded.values, registered := registered,
       raised := c.raised + [Raise(registered, decoded.values, signal, m.at, m.sent)])
  }

  predicate WellFormed<V>(s: System<V>) {
    s.server.Valid() && forall c :: 0 <= c < |s.clients| ==> |s.clients[c].values| == |s.server.kinds|
  }

  predicate Enabled<V>(s: System<V>, step: Step<V>) {
    match step
    case Change(i, _) => i < |s.server.current|
    case Emit(_, _) => true
    case AsyncGet(c) => c < |s.clients|
    case BlockingGet(c) => c < |s.clients|
    case Deliver(c) => c < |s.clients| && s.clients[c].inbox != []
  }

  function Next<V(==)>(s: System<V>, step: Step<V>): (s': System<V>)
    requires WellFormed(s) && Enabled(s, step)
    ensures WellFormed(s') && s'.server.kinds == s.server.kinds && |s'.clients| == |s.clients|
  {
    match step
    case Change(i, v) => s.(server := s.server.(current := s.server.current[i := v]))
    case Emit(id, arguments) =>
      if !s.server.connected then s
      else
        var m := SignalMessage(s.server, id, arguments);
        System(Updated(s.server),
               seq(|s.clients|, c requires 0 <= c < |s.clients| => s.clients[c].(inbox := s.clients[c].inbox + [m])))
    case AsyncGet(c) =>
      var server := Connect(s.server);
      System(server, s.clients[c := s.clients[c].(inbox := s.clients[c].inbox + [Snapshot(server)])])
    case BlockingGet(c) =>
      var server := Connect(s.server);
      System(server, s.clients[c := Receive(server.kinds, s.clients[c], Snapshot(server))])
    case Deliver(c) =>
      var client := s.clients[c];
      s.(clients := s.clients[c := Receive(s.server.kinds, client, client.inbox[0]).(inbox := client.inbox[1..])])
  }

  // ----- one property in one inbox

  // The value a message carries for property i, if any.
  function Mention<V(==)>(m: Message<V>, i: nat): Option<V> {
    if i < |m.before| && i < |m.at| && (m.isSnapshot || m.before[i] != m.at[i]) then Some(m.at[i]) else None
  }

  // The value property i has once the inbox is empty.
  function Drained<V(==)>(v: V, inbox: seq<Message<V>>, i: nat): V
    decreases |inbox|
  {
    if inbox == [] then v else Drained(Mention(inbox[0], i).GetOr(v), inbox[1..], i)
  }

  // m is a message about these properties, with the payload the server writes.
  ghost predicate Genuine<V>(m: Message<V>, kinds: seq<PropertyKind>) {
    && |m.before| == |m.at| == |kinds| && (m.sent.None? <==> m.isSnapshot)
    && m.payload == Encode(kinds, m.before, m.at, m.isSnapshot)
                    + match m.sent case None => [] case Some((id, arguments)) => SignalTokens(id, arguments)
  }

  lemma ReceiveMention<V>(kinds: seq<PropertyKind>, c: Client<V>, m: Message<V>, i: nat)
    requires Genuine(m, kinds) && |c.values| == |kinds| && i < |kinds| && !kinds[i].Model?
    ensures var c' := Receive(kinds, c, m);
            && c'.values[i] == Mention(m, i).GetOr(c.values[i])
            && c'.raised == c.raised + [Raise(c'.registered, c'.values, m.sent, m.at, m.sent)]
  {
    var tail := match m.sent case None => [] case Some((id, arguments)) => SignalTokens(id, arguments);
    DecodeEncode(kinds, c.values, m.before, m.at, m.isSnapshot, c.zero, tail);
    if m.sent.Some? {
      SignalRoundTrip(m.sent.value.0, m.sent.value.1, c.zero);
    }
  }

  lemma SentIsGenuine<V>(s: Server<V>, id: nat, arguments: seq<V>)
    requires s.Valid()
    ensures Genuine(Snapshot(s), s.kinds) && Genuine(SignalMessage(s, id, arguments), s.kinds)
  {
    assert Encode(s.kinds, s.previous, s.current, true) + [] == Encode(s.kinds, s.previous, s.current, true);
  }

  lemma {:induction false} DrainedAppend<V>(v: V, inbox: seq<Message<V>>, m: Message<V>, i: nat)
    ensures Drained(v, inbox + [m], i) == Mention(m, i).GetOr(Drained(v, inbox, i))
    decreases |inbox|
  {
    if inbox == [] {
      assert (inbox + [m])[1..] == [];
    } else {
      assert (inbox + [m])[1..] == inbox[1..] + [m];
      DrainedAppend(Mention(inbox[0], i).GetOr(v), inbox[1..], m, i);
    }
  }

  // What an inbox does to a property does not depend on its value, unless it does nothing.
  lemma {:induction false} DrainedEither<V>(v: V, w: V, inbox: seq<Message<V>>, i: nat)
    ensures Drained(v, inbox, i) == Drained(w, inbox, i) || (Drained(v, inbox, i) == v && Drained(w, inbox, i) == w)
    decreases |inbox|
  {
    if inbox != [] {
      DrainedEither(Mention(inbox[0], i).GetOr(v), Mention(inbox[0], i).GetOr(w), inbox[1..], i);
    }
  }

  // ----- replication

  predicate HasSnapshot<V(==)>(c: Client<V>) {
    c.registered || exists k :: 0 <= k < |c.inbox| && c.inbox[k].isSnapshot
  }

  /** Draining a client's inbox yields the value last sent; and an inbox brings that value back to
      itself, so that a reply may overtake it. */
  ghost predicate Follows<V>(kinds: seq<PropertyKind>, c: Client<V>, previous: V, i: nat) {
    && i < |kinds| == |c.values|
    && (forall k :: 0 <= k < |c.inbox| ==> Genuine(c.inbox[k], kinds))
    && Drained(previous, c.inbox, i) == previous
    && (HasSnapshot(c) ==> Drained(c.values[i], c.inbox, i) == previous)
  }

  // i is a property with a copy of the value last sent.
  predicate IsTracked<V>(s: System<V>, i: nat) {
    WellFormed(s) && i < |s.server.kinds| && !s.server.kinds[i].Model?
  }

  ghost predicate Replicated<V>(s: System<V>, i: nat) {
    && IsTracked(s, i)
    && (forall c :: 0 <= c < |s.clients| ==> Follows(s.server.kinds, s.clients[c], s.server.previous[i], i))
    && (!s.server.connected ==> forall c :: 0 <= c < |s.clients| ==>
         s.clients[c].inbox == [] && !s.clients[c].registered)
  }

  // No snapshot is taken between a change of property i and the signal that announces it.
  predicate Announced<V(==)>(s: System<V>, step: Step<V>, i: nat)
    requires IsTracked(s, i)
  {
    step.AsyncGet? || step.BlockingGet? ==> Connect(s.server).previous[i] == s.server.current[i]
  }

  lemma FollowsSignal<V>(c: Client<V>, s: Server<V>, id: nat, arguments: seq<V>, i: nat)
    requires s.Valid() && i < |s.kinds| && Follows(s.kinds, c, s.previous[i], i)
    ensures Follows(s.kinds, c.(inbox := c.inbox + [SignalMessage(s, id, arguments)]), s.current[i], i)
  {
    var m := SignalMessage(s, id, arguments);
    SentIsGenuine(s, id, arguments);
    DrainedAppend(s.current[i], c.inbox, m, i);
    DrainedAppend(c.values[i], c.inbox, m, i);
    if HasSnapshot(c.(inbox := c.inbox + [m])) && !c.registered {
      var k :| 0 <= k < |c.inbox + [m]| && (c.inbox + [m])[k].isSnapshot;
      assert c.inbox[k].isSnapshot;
    }
  }

  lemma FollowsReply<V>(c: Client<V>, s: Server<V>, i: nat)
    requires s.Valid() && i < |s.kinds| && !s.kinds[i].Model? && s.previous[i] == s.current[i]
    requires Follows(s.kinds, c, s.previous[i], i)
    ensures Follows(s.kinds, c.(inbox := c.inbox + [Snapshot(s)]), s.previous[i], i)
    ensures Follows(s.kinds, Receive(s.kinds, c, Snapshot(s)), s.previous[i], i)
  {
    SentIsGenuine(s, 0, []);
    DrainedAppend(s.current[i], c.inbox, Snapshot(s), i);
    DrainedAppend(c.values[i], c.inbox, Snapshot(s), i);
    ReceiveMention(s.kinds, c, Snapshot(s), i);
  }

  lemma FollowsDelivery<V>(kinds: seq<PropertyKind>, c: Client<V>, previous: V, i: nat)
    requires Follows(kinds, c, previous, i) && !kinds[i].Model? && c.inbox != []
    ensures Follows(kinds, Receive(kinds, c, c.inbox[0]).(inbox := c.inbox[1..]), previous, i)
  {
    var m := c.inbox[0];
    var c' := Receive(kinds, c, m).(inbox := c.inbox[1..]);
    ReceiveMention(kinds, c, m, i);
    DrainedEither(previous, Mention(m, i).GetOr(previous), c.inbox[1..], i);
    if HasSnapshot(c') && !c'.registered {
      var k :| 0 <= k < |c'.inbox| && c'.inbox[k].isSnapshot;
      assert c.inbox[k + 1].isSnapshot;
    }
  }

  lemma StepReplicates<V>(s: System<V>, step: Step<V>, i: nat)
    requires Replicated(s, i) && Enabled(s, step) && Announced(s, step, i)
    ensures Replicated(Next(s, step), i)
  {
    match step
    case Change(_, _) =>
    case Emit(id, arguments) =>
      forall c | 0 <= c < |s.clients|
        ensures Follows(s.server.kinds,
                        s.clients[c].(inbox := s.clients[c].inbox + [SignalMessage(s.server, id, arguments)]),
                        s.server.current[i], i)
      {
        FollowsSignal(s.clients[c], s.server, id, arguments, i);
      }
    case AsyncGet(c) => GetReplicates(s, c, i);
    case BlockingGet(c) => GetReplicates(s, c, i);
    case Deliver(c) => FollowsDelivery(s.server.kinds, s.clients[c], s.server.previous[i], i);
  }

  lemma GetReplicates<V>(s: System<V>, c: nat, i: nat)
    requires Replicated(s, i) && c < |s.clients| && Announced(s, AsyncGet(c), i)
    ensures Replicated(Next(s, AsyncGet(c)), i) && Replicated(Next(s, BlockingGet(c)), i)
  {
    var server := Connect(s.server);
    forall k | 0 <= k < |s.clients|
      ensures Follows(server.kinds, s.clients[k], server.previous[i], i)
    {
      assert Follows(s.server.kinds, s.clients[k], s.server.previous[i], i);
    }
    FollowsReply(s.clients[c], server, i);
  }

  predicate AllEnabled<V(==)>(s: System<V>, steps: seq<Step<V>>)
    requires WellFormed(s)
    decreases |steps|
  {
    steps == [] || (Enabled(s, steps[0]) && AllEnabled(Next(s, steps[0]), steps[1..]))
  }

  function Run<V(==)>(s: System<V>, steps: seq<Step<V>>): (s': System<V>)
    requires WellFormed(s) && AllEnabled(s, steps)
    ensures WellFormed(s') && s'.server.kinds == s.server.kinds && |s'.clients| == |s.clients|
    decreases |steps|
  {
    if steps == [] then s else Run(Next(s, steps[0]), steps[1..])
  }

  predicate AllAnnounced<V(==)>(s: System<V>, steps: seq<Step<V>>, i: nat)
    requires IsTracked(s, i) && AllEnabled(s, steps)
    decreases |steps|
  {
    steps == [] || (Announced(s, steps[0], i) && AllAnnounced(Next(s, steps[0]), steps[1..], i))
  }

  lemma {:induction false} RunReplicates<V>(s: System<V>, steps: seq<Step<V>>, i: nat)
    requires Replicated(s, i) && AllEnabled(s, steps) && AllAnnounced(s, steps, i)
    ensures Replicated(Run(s, steps), i)
    decreases |steps|
  {
    if steps != [] {
      StepReplicates(s, steps[0], i);
      RunReplicates(Next(s, steps[0]), steps[1..], i);
    }
  }

  // A service whose signals are not connected, and proxies that have received nothing.
  predicate Initial<V(==)>(s: System<V>) {
    && WellFormed(s) && !s.server.connected
    && forall c :: 0 <= c < |s.clients| ==>
         s.clients[c].inbox == [] && s.clients[c].raised == [] && !s.clients[c].registered
  }

  /** Replication: after any run, a client that has or awaits its snapshot ends up with the value
      last sent once its inbox is empty; hence with the server's value when that is announced. */
  lemma PropertyReplicated<V>(s: System<V>, steps: seq<Step<V>>, c: nat, i: nat)
    requires Initial(s) && IsTracked(s, i)
    requires AllEnabled(s, steps) && AllAnnounced(s, steps, i)
    requires c < |s.clients| && HasSnapshot(Run(s, steps).clients[c])
    ensures var s' := Run(s, steps);
            && Drained(s'.clients[c].values[i], s'.clients[c].inbox, i) == s'.server.previous[i]
            && (s'.clients[c].inbox == [] && s'.server.previous[i] == s'.server.current[i] ==>
                  s'.clients[c].values[i] == s'.server.current[i])
  {
    RunReplicates(s, steps, i);
    assert Follows(s.server.kinds, Run(s, steps).clients[c], Run(s, steps).server.previous[i], i);
  }

  // Every change of property i is followed at once by a signal, as its change signal is connected.
  predicate Prompt<V(==)>(steps: seq<Step<V>>, i: nat) {
    forall k :: 0 <= k < |steps| - 1 && steps[k].Change? && steps[k].property == i ==> steps[k + 1].Emit?
  }

  // A change of property i is still to be announced.
  predicate Changing<V(==)>(s: System<V>, i: nat)
    requires IsTracked(s, i)
  {
    s.server.connected && s.server.previous[i] != s.server.current[i]
  }

  /** For an ordinary property the hypothesis then holds: its first snapshot comes right after the
      previous copy is set, and no later one between a change and its signal. */
  lemma {:induction false} PromptIsAnnounced<V>(s: System<V>, steps: seq<Step<V>>, i: nat)
    requires IsTracked(s, i) && s.server.kinds[i].Ordinary? && AllEnabled(s, steps) && Prompt(steps, i)
    requires Changing(s, i) && steps != [] ==> steps[0].Emit?
    ensures AllAnnounced(s, steps, i)
    ensures Changing(Run(s, steps), i) ==>
      if steps == [] then Changing(s, i) else steps[|steps| - 1].Change? && steps[|steps| - 1].property == i
    decreases |steps|
  {
    if steps != [] {
      var rest := steps[1..];
      forall k | 0 <= k < |rest| - 1 && rest[k].Change? && rest[k].property == i
        ensures rest[k + 1].Emit?
      {
        assert steps[k + 1] == rest[k] && steps[k + 2] == rest[k + 1];
      }
      NextChanging(s, steps[0], i);
      hide Next;
      PromptIsAnnounced(Next(s, steps[0]), rest, i);
    }
  }

  lemma NextChanging<V>(s: System<V>, step: Step<V>, i: nat)
    requires IsTracked(s, i) && s.server.kinds[i].Ordinary? && Enabled(s, step)
    requires Changing(s, i) ==> step.Emit?
    ensures Announced(s, step, i)
    ensures IsTracked(Next(s, step), i) && (Changing(Next(s, step), i) ==> step.Change? && step.property == i)
  {
  }

  /** Replication of ordinary properties, whatever snapshots are taken: after any run in which every
      change is announced at once, a client that has or awaits its snapshot ends up with the
      server's value once its inbox is empty, unless the run ends between a change and its signal. */
  lemma OrdinaryPropertyReplicated<V>(s: System<V>, steps: seq<Step<V>>, c: nat, i: nat)
    requires Initial(s) && IsTracked(s, i) && s.server.kinds[i].Ordinary?
    requires AllEnabled(s, steps) && Prompt(steps, i)
    requires c < |s.clients| && HasSnapshot(Run(s, steps).clients[c])
    ensures var s' := Run(s, steps);
            && Drained(s'.clients[c].values[i], s'.clients[c].inbox, i) == s'.server.previous[i]
            && (steps == [] || !(steps[|steps| - 1].Change? && steps[|steps| - 1].property == i) ==>
                  Drained(s'.clients[c].values[i], s'.clients[c].inbox, i) == s'.server.current[i])
  {
    PromptIsAnnounced(s, steps, i);
    PropertyReplicated(s, steps, c, i);
    RunReplicates(s, steps, i);
  }

  /** And the hypothesis is needed: a reply that goes through the inbox leads its client to the
      value last sent exactly when it is not taken in the middle of a change. */
  lemma AsyncSnapshotFollowsExactlyWhen<V>(s: System<V>, c: nat, i: nat)
    requires Replicated(s, i) && c < |s.clients|
    ensures var s' := Next(s, AsyncGet(c));
            Drained(s'.clients[c].values[i], s'.clients[c].inbox, i) == s'.server.previous[i]
            <==> Announced(s, AsyncGet(c), i)
  {
    var server := Connect(s.server);
    DrainedAppend(s.clients[c].values[i], s.clients[c].inbox, Snapshot(server), i);
  }

  predicate SomeMention<V(==)>(inbox: seq<Message<V>>, i: nat) {
    exists k :: 0 <= k < |inbox| && Mention(inbox[k], i).Some?
  }

  // An inbox with a message about property i forgets the value it starts from, and no other does.
  lemma {:induction false} MentionForgets<V>(v: V, w: V, inbox: seq<Message<V>>, i: nat)
    ensures SomeMention(inbox, i) ==> Drained(v, inbox, i) == Drained(w, inbox, i)
    ensures !SomeMention(inbox, i) ==> Drained(v, inbox, i) == v
    decreases |inbox|
  {
    if inbox != [] {
      MentionForgets(Mention(inbox[0], i).GetOr(v), Mention(inbox[0], i).GetOr(w), inbox[1..], i);
      if k :| 0 <= k < |inbox| && Mention(inbox[k], i).Some? {
        assert k > 0 ==> Mention(inbox[1..][k - 1], i).Some?;
      }
      if k :| 0 <= k < |inbox[1..]| && Mention(inbox[1..][k], i).Some? {
        assert Mention(inbox[k + 1], i).Some?;
      }
    }
  }

  /** A blocking reply taken in the middle of a change is repaired by any message about the property
      it overtakes: exactly without one its client is led away from the value last sent. */
  lemma BlockingSnapshotFollowsExactlyWhen<V>(s: System<V>, c: nat, i: nat)
    requires Replicated(s, i) && c < |s.clients|
    ensures var s' := Next(s, BlockingGet(c));
            Drained(s'.clients[c].values[i], s'.clients[c].inbox, i) == s'.server.previous[i]
            <==> Announced(s, BlockingGet(c), i) || SomeMention(s.clients[c].inbox, i)
  {
    var client, server := s.clients[c], Connect(s.server);
    assert Follows(s.server.kinds, client, s.server.previous[i], i);
    SentIsGenuine(server, 0, []);
    ReceiveMention(server.kinds, client, Snapshot(server), i);
    MentionForgets(server.current[i], s.server.previous[i], client.inbox, i);
  }

  /** A signal brings a client up to date with property i exactly when the property differs from
      its previous copy, or the client was up to date anyway. */
  lemma SignalRepairsExactlyWhenChanged<V>(s: System<V>, id: nat, arguments: seq<V>, c: nat, i: nat)
    requires IsTracked(s, i) && s.server.connected && c < |s.clients|
    ensures var s' := Next(s, Emit(id, arguments));
            Drained(s'.clients[c].values[i], s'.clients[c].inbox, i) == s'.server.current[i]
            <==> s.server.previous[i] != s.server.current[i]
                 || Drained(s.clients[c].values[i], s.clients[c].inbox, i) == s.server.current[i]
  {
    DrainedAppend(s.clients[c].values[i], s.clients[c].inbox, SignalMessage(s.server, id, arguments), i);
  }

  /** So a ready flag that becomes true, with a copy that is still false, reaches every client. */
  lemma ReadyReachesClients(s: System<bool>, id: nat, arguments: seq<bool>, c: nat, i: nat)
    requires WellFormed(s) && s.server.connected && c < |s.clients| && i < |s.server.kinds|
    requires s.server.kinds[i] == Ready && !s.server.previous[i] && s.server.current[i]
    ensures var s' := Next(s, Emit(id, arguments));
            Drained(s'.clients[c].values[i], s'.clients[c].inbox, i)
  {
    SignalRepairsExactlyWhenChanged(s, id, arguments, c, i);
  }

  /** The size of a model property comes with snapshots, and with nothing else. */
  lemma ModelSizeBySnapshotsOnly<V>(kinds: seq<PropertyKind>, c: Client<V>, m: Message<V>, i: nat)
    requires Genuine(m, kinds) && |c.values| == |kinds| && i < |kinds| && kinds[i].Model?
    ensures Receive(kinds, c, m).values[i] == if m.isSnapshot then m.at[i] else c.values[i]
  {
    var tail := match m.sent case None => [] case Some((id, arguments)) => SignalTokens(id, arguments);
    DecodeEncode(kinds, c.values, m.before, m.at, m.isSnapshot, c.zero, tail);
  }

  /** The previous copies of the ready flag and of interface paths are not set by connectSignals():
      when such a property has another value at the first snapshot and then the one its copy starts
      with, the signal carries no value and the client stays with the other. */
  lemma UnseededStaysStale<V>(s: System<V>, kind: PropertyKind, initial: V, value: V, client: Client<V>)
    requires kind == Ready || kind == Interface
    requires s == System(Server([kind], [value], [initial], false), [client])
    requires client == Client(initial, [initial], false, [], [])
    ensures Initial(s)
    ensures var first := Next(Next(s, AsyncGet(0)), Deliver(0));
            var s' := Next(Next(Next(first, Change(0, initial)), Emit(0, [])), Deliver(0));
            && s'.clients[0].inbox == [] && s'.clients[0].registered
            && s'.server.current == [initial] && s'.clients[0].values == [value]
  {
    var kinds := s.server.kinds;
    var s1 := Next(s, AsyncGet(0));
    assert s1.server == Server([kind], [value], [initial], true);
    SentIsGenuine(s1.server, 0, []);
    assert s1.clients[0].inbox == [Snapshot(s1.server)];
    ReceiveMention(kinds, s1.clients[0], Snapshot(s1.server), 0);
    hide Connect, Snapshot, Encode, Decode, Genuine;
    var s2 := Next(s1, Deliver(0));
    assert s2.clients[0].values == [value] && s2.clients[0].inbox == [];
    var s3 := Next(s2, Change(0, initial));
    assert s3.server == Server([kind], [initial], [initial], true);
    var m := SignalMessage(s3.server, 0, []);
    SentIsGenuine(s3.server, 0, []);
    assert Next(s3, Emit(0, [])).clients[0].inbox == [m];
    ReceiveMention(kinds, Next(s3, Emit(0, [])).clients[0], m, 0);
  }

  /** So a service that was ready and is not any more stays ready in a client. */
  lemma ReadyFlagStaysStale(s: System<bool>)
    requires s == System(Server([Ready], [true], [false], false), [Client(false, [false], false, [], [])])
    ensures Initial(s)
    ensures var first := Next(Next(s, AsyncGet(0)), Deliver(0));
            var s' := Next(Next(Next(first, Change(0, false)), Emit(0, [])), Deliver(0));
            && s'.clients[0].inbox == [] && s'.clients[0].registered
            && s'.server.current == [false] && s'.clients[0].values == [true]
  {
    UnseededStaysStale(s, Ready, false, true, s.clients[0]);
  }
}
