/**
 Runs of the object registry: a master, any number of replicas, and the bus between them.

 `Safety` lets the bus lose, duplicate and reorder signals and deliver snapshots arbitrarily late.
 `Convergence` has one first-in first-out inbox per replica, and blocking snapshots that overtake it.
 */
module RegistryRuns {

  import opened Wrappers
  import opened ObjectRegistry

  ghost function Changes(sent: seq<Delta>): seq<Change> {
    seq(|sent|, i requires 0 <= i < |sent| => sent[i].change)
  }

  // The master and all the signals it ever emitted belong to one legal history.
  ghost predicate MasterInvariant(master: Master, sent: seq<Delta>) {
    var history := Changes(sent);
    && Legal(history)
    && master == MasterAfter(history, |history|)
    && forall k :: 0 <= k < |sent| ==> sent[k] == SignalOf(history, k)
  }

  lemma MasterAdvances(master: Master, sent: seq<Delta>, master': Master, d: Delta)
    requires MasterInvariant(master, sent)
    requires Applicable(master.objects, d.change) && d.version == NextVersion(master.version)
    requires master' == Master(d.version, Apply(master.objects, d.change))
    ensures MasterInvariant(master', sent + [d])
    ensures forall k :: 0 <= k <= |sent| ==>
      ReplicaAfter(Changes(sent + [d]), k) == ReplicaAfter(Changes(sent), k)
  {
    var history := Changes(sent);
    assert Changes(sent + [d]) == history + [d.change];
    LegalGrows(history, d.change);
    LastChangeApplied(history, d.change);
    forall k | 0 <= k <= |sent|
      ensures ObjectsAfter(history + [d.change], k) == ObjectsAfter(history, k)
    {
      HistoryGrows(history, d.change, k);
    }
  }

  // The requests a master serves.
  datatype Request = Registration(path: string, service: string) | Unregistration(path: string, service: string)

  ghost function Serve(master: Master, request: Request): (Master, Option<Delta>) {
    match request
    case Registration(path, service) => Register(master, path, service)
    case Unregistration(path, service) => Unregister(master, path, service)
  }

  // Object paths begin with a slash: section "Valid Object Paths" of the D-Bus Specification.
  ghost predicate ValidRequest(request: Request) {
    request.path != VERSION_KEY
  }

  lemma ServeKeepsInvariant(master: Master, sent: seq<Delta>, request: Request)
    requires MasterInvariant(master, sent) && ValidRequest(request)
    ensures var (master', d) := Serve(master, request);
            match d
            case None => master' == master
            case Some(delta) =>
              && MasterInvariant(master', sent + [delta])
              && forall k :: 0 <= k <= |sent| ==>
                   ReplicaAfter(Changes(sent + [delta]), k) == ReplicaAfter(Changes(sent), k)
  {
    var (master', d) := Serve(master, request);
    if d.Some? {
      MasterAdvances(master, sent, master', d.value);
    }
  }

  // ----- safety, on a bus that loses, duplicates and reorders

  datatype Snapshot = Snapshot(content: ObjectMap, taken: nat)

  datatype World = World(
    master: Master,
    sent: seq<Delta>,             // every signal ever emitted
    snapshots: seq<Snapshot>,     // every reply to getObjects() ever made
    replicas: seq<Replica>,
    position: seq<nat>,           // history variable: after which change a replica stands
    complaints: nat)              // how often a replica found a signal contradicting its map

  datatype Event =
    | Request(request: Request)
    | TakeSnapshot
    | DeliverSnapshot(replica: nat, snapshot: nat)
    | DeliverSignal(replica: nat, signal: nat)

  ghost predicate Enabled(w: World, e: Event)
    requires |w.position| == |w.replicas|
  {
    match e
    case Request(request) => ValidRequest(request)
    case TakeSnapshot => true
    case DeliverSnapshot(i, s) => i < |w.replicas| && s < |w.snapshots|
    case DeliverSignal(i, j) =>
      && i < |w.replicas| && j < |w.sent|
      && (w.replicas[i].HasValidObjects() ==> NotCyclesApart(j, w.position[i]))
  }

  ghost function Next(w: World, e: Event): (w': World)
    requires |w.position| == |w.replicas| && Enabled(w, e)
    ensures |w'.position| == |w'.replicas|
  {
    match e
    case Request(request) =>
      var (master', d) := Serve(w.master, request);
      w.(master := master', sent := if d.Some? then w.sent + [d.value] else w.sent)
    case TakeSnapshot =>
      w.(snapshots := w.snapshots + [Snapshot(GetObjects(w.master), |w.sent|)])
    case DeliverSnapshot(i, s) =>
      var r := w.replicas[i];
      w.(replicas := w.replicas[i := UpdateObjects(r, w.snapshots[s].content)],
         position := if r.HasValidObjects() then w.position else w.position[i := w.snapshots[s].taken])
    case DeliverSignal(i, j) =>
      var r := w.replicas[i];
      w.(replicas := w.replicas[i := Receive(r, w.sent[j])],
         position := if Accepts(r, w.sent[j].version) then w.position[i := w.position[i] + 1] else w.position,
         complaints := w.complaints + if Complains(r, w.sent[j]) then 1 else 0)
  }

  // Every replica is without objects or holds the master's map of its position.
  ghost predicate Safe(w: World) {
    && MasterInvariant(w.master, w.sent)
    && |w.position| == |w.replicas|
    && (forall s :: 0 <= s < |w.snapshots| ==>
          && w.snapshots[s].taken <= |w.sent|
          && w.snapshots[s].content == GetObjects(MasterAfter(Changes(w.sent), w.snapshots[s].taken)))
    && (forall i :: 0 <= i < |w.replicas| && w.replicas[i].HasValidObjects() ==>
          w.position[i] <= |w.sent| && w.replicas[i] == ReplicaAfter(Changes(w.sent), w.position[i]))
    && w.complaints == 0
  }

  lemma RequestIsSafe(w: World, request: Request)
    requires Safe(w) && ValidRequest(request)
    ensures Safe(Next(w, Request(request)))
  {
    var w' := Next(w, Request(request));
    ServeKeepsInvariant(w.master, w.sent, request);
    hide MasterInvariant, ObjectsAfter, VersionAfter, GetObjects, Serve;
    forall k | 0 <= k <= |w.sent|
      ensures MasterAfter(Changes(w'.sent), k) == MasterAfter(Changes(w.sent), k)
    {
      assert ReplicaAfter(Changes(w'.sent), k) == ReplicaAfter(Changes(w.sent), k);
    }
  }

  lemma SnapshotIsSafe(w: World, i: nat, s: nat)
    requires Safe(w) && i < |w.replicas| && s < |w.snapshots|
    ensures Safe(Next(w, DeliverSnapshot(i, s)))
  {
    SnapshotTaken(Changes(w.sent), w.replicas[i], w.snapshots[s].taken);
    hide ObjectsAfter, VersionAfter, GetObjects, UpdateObjects, MasterInvariant;
  }

  lemma SignalIsSafe(w: World, i: nat, j: nat)
    requires Safe(w) && Enabled(w, DeliverSignal(i, j))
    ensures Safe(Next(w, DeliverSignal(i, j)))
  {
    if w.replicas[i].HasValidObjects() {
      SignalAccepted(Changes(w.sent), w.position[i], j);
    }
    hide ObjectsAfter, VersionAfter, GetObjects, Receive, Legal, Changes;
  }

  lemma StepIsSafe(w: World, e: Event)
    requires Safe(w) && Enabled(w, e)
    ensures Safe(Next(w, e))
  {
    match e
    case Request(request) => RequestIsSafe(w, request);
    case TakeSnapshot => hide MasterInvariant, ObjectsAfter, VersionAfter, GetObjects;
    case DeliverSnapshot(i, s) => SnapshotIsSafe(w, i, s);
    case DeliverSignal(i, j) => SignalIsSafe(w, i, j);
  }

  ghost function InitialWorld(replicas: nat): World {
    World(Master(INITIAL_REGISTRY_VERSION, map[]), [], [],
          seq(replicas, _ => Replica(INVALID_REGISTRY_VERSION, map[])), seq(replicas, _ => 0), 0)
  }

  ghost predicate AllEnabled(w: World, events: seq<Event>)
    requires |w.position| == |w.replicas|
    decreases |events|
  {
    events == [] || (Enabled(w, events[0]) && AllEnabled(Next(w, events[0]), events[1..]))
  }

  ghost function Run(w: World, events: seq<Event>): World
    requires |w.position| == |w.replicas| && AllEnabled(w, events)
    decreases |events|
  {
    if events == [] then w else Run(Next(w, events[0]), events[1..])
  }

  lemma {:induction false} RunFromSafe(w: World, events: seq<Event>)
    requires Safe(w) && AllEnabled(w, events)
    ensures Safe(Run(w, events))
    decreases |events|
  {
    if events != [] {
      StepIsSafe(w, events[0]);
      RunFromSafe(Next(w, events[0]), events[1..]);
    }
  }

  // The master had this version and, at that time, this map.
  ghost predicate OnceTheMasters(sent: seq<Delta>, r: Replica) {
    exists k :: 0 <= k <= |sent| && r.version == VersionAfter(k) && r.objects == ObjectsAfter(Changes(sent), k)
  }

  /** Safety: after any run a replica with a valid version holds the master's map as it stood when
      the master had that version, and no replica ever took an error branch. */
  lemma RegistrySafety(replicas: nat, events: seq<Event>)
    requires AllEnabled(InitialWorld(replicas), events)
    ensures var w := Run(InitialWorld(replicas), events);
            && w.complaints == 0
            && forall i :: 0 <= i < |w.replicas| && w.replicas[i].HasValidObjects() ==>
                 OnceTheMasters(w.sent, w.replicas[i])
  {
    var w0 := InitialWorld(replicas);
    assert Changes([]) == [];
    RunFromSafe(w0, events);
    var w := Run(w0, events);
    forall i | 0 <= i < |w.replicas| && w.replicas[i].HasValidObjects()
      ensures OnceTheMasters(w.sent, w.replicas[i])
    {
      var k := w.position[i];
      assert w.replicas[i].version == VersionAfter(k) && w.replicas[i].objects == ObjectsAfter(Changes(w.sent), k);
    }
  }

  // ----- convergence, on a bus that delivers everything in order

  datatype Item = Signal(delta: Delta) | Reply(content: ObjectMap)

  datatype Node = Node(replica: Replica, inbox: seq<Item>)

  datatype System = System(master: Master, sent: seq<Delta>, nodes: seq<Node>)

  datatype Step =
    | Ask(request: Request)
    | Join                        // a further replica connects its signals
    | AsyncReply(node: nat)       // the master answers an asynchronous getObjects()
    | Sync(node: nat)             // syncObjects(): a blocking getObjects() that overtakes the inbox
    | Deliver(node: nat)

  ghost function Handle(r: Replica, item: Item): Replica {
    match item
    case Signal(d) => Receive(r, d)
    case Reply(content) => UpdateObjects(r, content)
  }

  // What the replica will be once its inbox is empty.
  ghost function Drain(r: Replica, inbox: seq<Item>): Replica
    decreases |inbox|
  {
    if inbox == [] then r else Drain(Handle(r, inbox[0]), inbox[1..])
  }

  ghost function Post(nodes: seq<Node>, item: Item): (nodes': seq<Node>)
    ensures |nodes'| == |nodes|
  {
    seq(|nodes|, i requires 0 <= i < |nodes| => Node(nodes[i].replica, nodes[i].inbox + [item]))
  }

  // The signals waiting in an inbox.
  ghost function Pending(inbox: seq<Item>): seq<Delta> {
    if inbox == [] then []
    else (if inbox[0].Signal? then [inbox[0].delta] else []) + Pending(inbox[1..])
  }

  // A blocking snapshot must not overtake a whole cycle of signals.
  ghost predicate Possible(s: System, step: Step) {
    match step
    case Ask(request) => ValidRequest(request)
    case Join => true
    case AsyncReply(i) => i < |s.nodes|
    case Sync(i) => i < |s.nodes| && |Pending(s.nodes[i].inbox)| < CYCLE
    case Deliver(i) => i < |s.nodes| && s.nodes[i].inbox != []
  }

  ghost function Do(s: System, step: Step): System
    requires Possible(s, step)
  {
    match step
    case Ask(request) =>
      var (master', d) := Serve(s.master, request);
      if d.None? then s.(master := master')
      else System(master', s.sent + [d.value], Post(s.nodes, Signal(d.value)))
    case Join =>
      s.(nodes := s.nodes + [Node(Replica(INVALID_REGISTRY_VERSION, map[]), [])])
    case AsyncReply(i) =>
      s.(nodes := s.nodes[i := s.nodes[i].(inbox := s.nodes[i].inbox + [Reply(GetObjects(s.master))])])
    case Sync(i) =>
      s.(nodes := s.nodes[i := s.nodes[i].(replica := UpdateObjects(s.nodes[i].replica, GetObjects(s.master)))])
    case Deliver(i) =>
      var node := s.nodes[i];
      s.(nodes := s.nodes[i := Node(Handle(node.replica, node.inbox[0]), node.inbox[1..])])
  }

  ghost predicate HasSnapshot(node: Node) {
    node.replica.HasValidObjects() || exists k :: 0 <= k < |node.inbox| && node.inbox[k].Reply?
  }

  ghost predicate Converging(master: Master, sent: seq<Delta>, node: Node) {
    && |Pending(node.inbox)| <= |sent|
    && Pending(node.inbox) == sent[|sent| - |Pending(node.inbox)|..]
    && (HasSnapshot(node) ==> Drain(node.replica, node.inbox) == Replica(master.version, master.objects))
  }

  ghost predicate SystemInvariant(s: System) {
    && MasterInvariant(s.master, s.sent)
    && forall i :: 0 <= i < |s.nodes| ==> Converging(s.master, s.sent, s.nodes[i])
  }

  lemma {:induction false} AppendItem(r: Replica, inbox: seq<Item>, item: Item)
    ensures Drain(r, inbox + [item]) == Handle(Drain(r, inbox), item)
    ensures Pending(inbox + [item]) == Pending(inbox) + if item.Signal? then [item.delta] else []
    decreases |inbox|
  {
    if inbox == [] {
      assert (inbox + [item])[1..] == [];
    } else {
      assert (inbox + [item])[1..] == inbox[1..] + [item];
      AppendItem(Handle(r, inbox[0]), inbox[1..], item);
    }
  }

  // Signals that a valid replica does not accept, and replies, leave it as it is.
  lemma {:induction false} DrainStale(r: Replica, inbox: seq<Item>)
    requires r.HasValidObjects()
    requires forall d :: d in Pending(inbox) ==> !Accepts(r, d.version)
    ensures Drain(r, inbox) == r
    decreases |inbox|
  {
    if inbox != [] {
      assert forall d :: d in Pending(inbox[1..]) ==> d in Pending(inbox);
      assert inbox[0].Signal? ==> inbox[0].delta in Pending(inbox);
      DrainStale(r, inbox[1..]);
    }
  }

  /** A blocking snapshot overtakes the queued signals: they are all stale. */
  lemma QueuedSignalsAreStale(master: Master, sent: seq<Delta>, node: Node)
    requires MasterInvariant(master, sent) && Converging(master, sent, node) && |Pending(node.inbox)| < CYCLE
    ensures Drain(Replica(master.version, master.objects), node.inbox) == Replica(master.version, master.objects)
  {
    var r := Replica(master.version, master.objects);
    forall d | d in Pending(node.inbox)
      ensures !Accepts(r, d.version)
    {
      var n := |sent| - |Pending(node.inbox)|;
      var k :| 0 <= k < |Pending(node.inbox)| && Pending(node.inbox)[k] == d;
      NotAccepted(sent, master, n + k);
    }
    VersionInRange(|sent|);
    DrainStale(r, node.inbox);
  }

  lemma NotAccepted(sent: seq<Delta>, master: Master, k: nat)
    requires MasterInvariant(master, sent) && |sent| - CYCLE < k < |sent|
    ensures !Accepts(Replica(master.version, master.objects), sent[k].version)
  {
    SignalAccepted(Changes(sent), |sent|, k);
  }

  lemma NodeGetsSignal(master: Master, sent: seq<Delta>, node: Node, master': Master, d: Delta)
    requires MasterInvariant(master, sent) && Converging(master, sent, node)
    requires Applicable(master.objects, d.change) && d.version == NextVersion(master.version)
    requires master' == Master(d.version, Apply(master.objects, d.change))
    ensures Converging(master', sent + [d], Node(node.replica, node.inbox + [Signal(d)]))
  {
    AppendItem(node.replica, node.inbox, Signal(d));
    VersionInRange(|sent|);
    var node' := Node(node.replica, node.inbox + [Signal(d)]);
    if HasSnapshot(node') {
      assert HasSnapshot(node) by {
        if !node.replica.HasValidObjects() {
          var k :| 0 <= k < |node'.inbox| && node'.inbox[k].Reply?;
          assert node.inbox[k].Reply?;
        }
      }
    }
  }

  lemma StepConverges(s: System, step: Step)
    requires SystemInvariant(s) && Possible(s, step)
    ensures SystemInvariant(Do(s, step))
  {
    match step
    case Ask(request) => AskConverges(s, request);
    case Join => assert Converging(s.master, s.sent, Node(Replica(INVALID_REGISTRY_VERSION, map[]), []));
    case AsyncReply(i) => ReplyConverges(s.master, s.sent, s.nodes[i]);
    case Sync(i) => SyncConverges(s.master, s.sent, s.nodes[i]);
    case Deliver(i) => DeliverConverges(s.master, s.sent, s.nodes[i]);
  }

  lemma AskConverges(s: System, request: Request)
    requires SystemInvariant(s) && ValidRequest(request)
    ensures SystemInvariant(Do(s, Ask(request)))
  {
    ServeKeepsInvariant(s.master, s.sent, request);
    var (master', d) := Serve(s.master, request);
    if d.Some? {
      forall i | 0 <= i < |s.nodes|
        ensures Converging(master', s.sent + [d.value], Post(s.nodes, Signal(d.value))[i])
      {
        NodeGetsSignal(s.master, s.sent, s.nodes[i], master', d.value);
      }
    }
  }

  lemma SyncConverges(master: Master, sent: seq<Delta>, node: Node)
    requires MasterInvariant(master, sent) && Converging(master, sent, node) && |Pending(node.inbox)| < CYCLE
    ensures Converging(master, sent, node.(replica := UpdateObjects(node.replica, GetObjects(master))))
  {
    SnapshotTaken(Changes(sent), node.replica, |sent|);
    if !node.replica.HasValidObjects() {
      QueuedSignalsAreStale(master, sent, node);
    }
  }

  lemma ReplyConverges(master: Master, sent: seq<Delta>, node: Node)
    requires MasterInvariant(master, sent) && Converging(master, sent, node)
    ensures Converging(master, sent, node.(inbox := node.inbox + [Reply(GetObjects(master))]))
  {
    var reply := Reply(GetObjects(master));
    AppendItem(node.replica, node.inbox, reply);
    SnapshotTaken(Changes(sent), Drain(node.replica, node.inbox), |sent|);
    if Drain(node.replica, node.inbox).HasValidObjects() {
      DrainedValidHasSnapshot(node.replica, node.inbox);
    }
  }

  // Objects become valid by a snapshot only.
  lemma {:induction false} DrainedValidHasSnapshot(r: Replica, inbox: seq<Item>)
    requires Drain(r, inbox).HasValidObjects()
    ensures HasSnapshot(Node(r, inbox))
    decreases |inbox|
  {
    if inbox != [] && !r.HasValidObjects() && !inbox[0].Reply? {
      DrainedValidHasSnapshot(Handle(r, inbox[0]), inbox[1..]);
      var k :| 0 <= k < |inbox[1..]| && inbox[1..][k].Reply?;
      assert inbox[k + 1].Reply?;
    }
  }

  lemma DeliverConverges(master: Master, sent: seq<Delta>, node: Node)
    requires MasterInvariant(master, sent) && Converging(master, sent, node) && node.inbox != []
    ensures Converging(master, sent, Node(Handle(node.replica, node.inbox[0]), node.inbox[1..]))
  {
    var node' := Node(Handle(node.replica, node.inbox[0]), node.inbox[1..]);
    if HasSnapshot(node') {
      assert HasSnapshot(node) by {
        if !node.replica.HasValidObjects() && !node.inbox[0].Reply? {
          var k :| 0 <= k < |node'.inbox| && node'.inbox[k].Reply?;
          assert node.inbox[k + 1].Reply?;
        }
      }
    }
  }

  ghost predicate AllPossible(s: System, steps: seq<Step>)
    decreases |steps|
  {
    steps == [] || (Possible(s, steps[0]) && AllPossible(Do(s, steps[0]), steps[1..]))
  }

  ghost function Perform(s: System, steps: seq<Step>): System
    requires AllPossible(s, steps)
    decreases |steps|
  {
    if steps == [] then s else Perform(Do(s, steps[0]), steps[1..])
  }

  lemma {:induction false} RunConverges(s: System, steps: seq<Step>)
    requires SystemInvariant(s) && AllPossible(s, steps)
    ensures SystemInvariant(Perform(s, steps))
    decreases |steps|
  {
    if steps != [] {
      StepConverges(s, steps[0]);
      RunConverges(Do(s, steps[0]), steps[1..]);
    }
  }

  /** Convergence: after any run, a replica that has its snapshot and an empty inbox has the
      master's map and version, whether the snapshot came in order or overtook queued signals. */
  lemma RegistryConvergence(steps: seq<Step>, i: nat)
    requires AllPossible(System(Master(INITIAL_REGISTRY_VERSION, map[]), [], []), steps)
    requires var s := Perform(System(Master(INITIAL_REGISTRY_VERSION, map[]), [], []), steps);
             i < |s.nodes| && s.nodes[i].inbox == [] && s.nodes[i].replica.HasValidObjects()
    ensures var s := Perform(System(Master(INITIAL_REGISTRY_VERSION, map[]), [], []), steps);
            s.nodes[i].replica == Replica(s.master.version, s.master.objects)
  {
    var s0 := System(Master(INITIAL_REGISTRY_VERSION, map[]), [], []);
    assert Changes([]) == [];
    RunConverges(s0, steps);
    var s := Perform(s0, steps);
    assert Converging(s.master, s.sent, s.nodes[i]);
  }
}
