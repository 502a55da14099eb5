/**
 The D-Bus object registry of src/ipc/dbus/DBusObjectRegistry.cpp: one master map with a wrapping
 version, and the messages and replicas that follow it.
 */
module ObjectRegistry {

  import opened Wrappers
  import opened Decimal

  const INVALID_REGISTRY_VERSION := 0
  const INITIAL_REGISTRY_VERSION := 1
  const VERSION_KEY := "@version"

  // The number of versions nextVersion() goes through before it repeats.
  const CYCLE := INT_MAX - 1

  type ObjectMap = map<string, string>

  datatype Change = Added(path: string, service: string) | Removed(path: string)

  // The signals objectAdded and objectRemoved.
  datatype Delta = Delta(change: Change, version: int)

  datatype Master = Master(version: int, objects: ObjectMap)

  datatype Replica = Replica(version: int, objects: ObjectMap) {
    predicate HasValidObjects() {
      version != INVALID_REGISTRY_VERSION
    }
  }

  // ----- versions

  // nextVersion()
  function NextVersion(currentVersion: int): int {
    var version := currentVersion + 1;
    if version == INT_MAX then INITIAL_REGISTRY_VERSION else version
  }

  // The version after k changes.
  function VersionAfter(k: nat): int {
    if k == 0 then INITIAL_REGISTRY_VERSION else NextVersion(VersionAfter(k - 1))
  }

  /** Versions stay between 1 and INT_MAX - 1, over any number of changes. */
  lemma {:induction false} VersionInRange(k: nat)
    ensures VersionAfter(k) == 1 + k % CYCLE
    ensures 1 <= VersionAfter(k) < INT_MAX
  {
    if k > 0 {
      VersionInRange(k - 1);
    }
  }

  /** Two versions coincide exactly when a multiple of the cycle lies between them. */
  lemma VersionsCoincide(j: nat, k: nat)
    ensures VersionAfter(j) == VersionAfter(k) <==> (j - k) % CYCLE == 0
  {
    hide VersionAfter;
    VersionInRange(j);
    VersionInRange(k);
  }

  // ----- the master

  // MasterImpl::registerObject()
  function Register(m: Master, path: string, service: string): (Master, Option<Delta>) {
    if path == "" || service == "" || path in m.objects then (m, None)
    else
      var m' := Master(NextVersion(m.version), m.objects[path := service]);
      (m', Some(Delta(Added(path, service), m'.version)))
  }

  // MasterImpl::unregisterObject()
  function Unregister(m: Master, path: string, service: string): (Master, Option<Delta>) {
    if path in m.objects && m.objects[path] == service then
      var m' := Master(NextVersion(m.version), m.objects - {path});
      (m', Some(Delta(Removed(path), m'.version)))
    else (m, None)
  }

  // MasterImpl::getObjects(): the version travels inside the map.
  function GetObjects(m: Master): ObjectMap {
    m.objects[VERSION_KEY := Number(m.version)]
  }

  class MasterImpl {
    var m_version: int
    var m_objectMap: ObjectMap
    var emitted: seq<Delta>

    ghost function State(): Master
      reads this
    {
      Master(m_version, m_objectMap)
    }

    // The constructor and init()
    constructor ()
      ensures State() == Master(INITIAL_REGISTRY_VERSION, map[]) && emitted == []
    {
      m_version, m_objectMap, emitted := INITIAL_REGISTRY_VERSION, map[], [];
    }

    method UpdateVersion()
      modifies this`m_version
      ensures m_version == NextVersion(old(m_version))
    {
      m_version := NextVersion(m_version);
    }

    // getObjects()
    method SnapshotOfObjects() returns (result: ObjectMap)
      ensures result == GetObjects(State())
    {
      result := m_objectMap;
      result := result[VERSION_KEY := Number(m_version)];
    }

    method RegisterObject(objectPath: string, serviceName: string) returns (successful: bool)
      modifies this
      ensures State() == Register(old(State()), objectPath, serviceName).0
      ensures var d := Register(old(State()), objectPath, serviceName).1;
              successful == d.Some? && emitted == if d.Some? then old(emitted) + [d.value] else old(emitted)
    {
      if |objectPath| == 0 || |serviceName| == 0 {
        return false;
      } else if objectPath !in m_objectMap {
        m_objectMap := m_objectMap[objectPath := serviceName];
        UpdateVersion();
        emitted := emitted + [Delta(Added(objectPath, serviceName), m_version)];
        return true;
      } else {
        return false;
      }
    }

    method UnregisterObject(objectPath: string, serviceName: string) returns (successful: bool)
      modifies this
      ensures State() == Unregister(old(State()), objectPath, serviceName).0
      ensures var d := Unregister(old(State()), objectPath, serviceName).1;
              successful == d.Some? && emitted == if d.Some? then old(emitted) + [d.value] else old(emitted)
    {
      if objectPath in m_objectMap && m_objectMap[objectPath] == serviceName {
        m_objectMap := m_objectMap - {objectPath};
        UpdateVersion();
        emitted := emitted + [Delta(Removed(objectPath), m_version)];
        return true;
      } else {
        return false;
      }
    }
  }

  // ----- replicas

  // updateObjects()
  function UpdateObjects(r: Replica, objectMap: ObjectMap): Replica {
    if r.HasValidObjects() then r
    else Replica(if VERSION_KEY in objectMap then ToInt(objectMap[VERSION_KEY]) else 0, objectMap - {VERSION_KEY})
  }

  predicate Accepts(r: Replica, version: int) {
    r.HasValidObjects() && version == NextVersion(r.version)
  }

  // onObjectAdded() and onObjectRemoved()
  function Receive(r: Replica, d: Delta): Replica {
    if !Accepts(r, d.version) then r
    else match d.change
      case Added(path, service) =>
        Replica(d.version, if path in r.objects then r.objects else r.objects[path := service])
      case Removed(path) =>
        Replica(d.version, r.objects - {path})
  }

  // The branches that log "already contains" and "does not exist".
  predicate Complains(r: Replica, d: Delta) {
    Accepts(r, d.version) && (d.change.path in r.objects <==> d.change.Added?)
  }

  class RegistryReplica {
    var m_registryVersion: int
    var m_objects: ObjectMap
    var criticals: nat           // how often an error branch was taken

    ghost function State(): Replica
      reads this
    {
      Replica(m_registryVersion, m_objects)
    }

    constructor ()
      ensures State() == Replica(INVALID_REGISTRY_VERSION, map[]) && criticals == 0
    {
      m_registryVersion, m_objects, criticals := INVALID_REGISTRY_VERSION, map[], 0;
    }

    method Update(objectMap: ObjectMap)
      modifies this`m_registryVersion, this`m_objects
      ensures State() == UpdateObjects(old(State()), objectMap)
    {
      if m_registryVersion == INVALID_REGISTRY_VERSION {
        m_registryVersion := if VERSION_KEY in objectMap then ToInt(objectMap[VERSION_KEY]) else 0;
        m_objects := objectMap - {VERSION_KEY};
      }
    }

    method OnObjectAdded(objectPath: string, serviceName: string, registryVersion: int)
      modifies this
      ensures State() == Receive(old(State()), Delta(Added(objectPath, serviceName), registryVersion))
      ensures criticals == old(criticals) +
                (if Complains(old(State()), Delta(Added(objectPath, serviceName), registryVersion)) then 1 else 0)
    {
      if m_registryVersion != INVALID_REGISTRY_VERSION && registryVersion == NextVersion(m_registryVersion) {
        m_registryVersion := registryVersion;
        if objectPath !in m_objects {
          m_objects := m_objects[objectPath := serviceName];
        } else {
          criticals := criticals + 1;
        }
      }
    }

    method OnObjectRemoved(objectPath: string, registryVersion: int)
      modifies this
      ensures State() == Receive(old(State()), Delta(Removed(objectPath), registryVersion))
      ensures criticals == old(criticals) +
                (if Complains(old(State()), Delta(Removed(objectPath), registryVersion)) then 1 else 0)
    {
      if m_registryVersion != INVALID_REGISTRY_VERSION && registryVersion == NextVersion(m_registryVersion) {
        m_registryVersion := registryVersion;
        if objectPath !in m_objects {
          criticals := criticals + 1;
        }
        m_objects := m_objects - {objectPath};
      }
    }
  }

  /** A replica without valid objects recovers map and version from a snapshot, exactly when no
      object is registered under the reserved key. */
  lemma SnapshotRoundTrip(r: Replica, m: Master)
    requires !r.HasValidObjects() && 1 <= m.version < INT_MAX
    ensures UpdateObjects(r, GetObjects(m)) == Replica(m.version, m.objects) <==> VERSION_KEY !in m.objects
    ensures UpdateObjects(r, GetObjects(m)).HasValidObjects()
  {
    NumberRoundTrip(m.version);
    var r' := UpdateObjects(r, GetObjects(m));
    if VERSION_KEY !in m.objects {
      assert r'.objects == m.objects;
    } else {
      assert VERSION_KEY !in r'.objects;
    }
  }

  // ----- history: the changes the master made, in order

  ghost predicate Applicable(objects: ObjectMap, c: Change) {
    match c
    case Added(path, _) => path !in objects && path != VERSION_KEY
    case Removed(path) => path in objects
  }

  ghost function Apply(objects: ObjectMap, c: Change): ObjectMap {
    match c
    case Added(path, service) => objects[path := service]
    case Removed(path) => objects - {path}
  }

  /** An error branch is taken exactly by an accepted signal whose change does not fit the map, which
      is then left as it is; otherwise the replica makes the very change the signal tells. */
  lemma ComplainsExactly(r: Replica, d: Delta)
    requires d.change.path != VERSION_KEY
    ensures Complains(r, d) <==> Accepts(r, d.version) && !Applicable(r.objects, d.change)
    ensures Accepts(r, d.version) && !Complains(r, d) ==>
              Receive(r, d) == Replica(d.version, Apply(r.objects, d.change))
    ensures Complains(r, d) ==> Receive(r, d) == Replica(d.version, r.objects)
    ensures !Accepts(r, d.version) ==> Receive(r, d) == r
  {
    if Complains(r, d) && d.change.Removed? {
      assert r.objects - {d.change.path} == r.objects;
    }
  }

  // The master's map after the first k changes.
  ghost function ObjectsAfter(history: seq<Change>, k: nat): ObjectMap
    requires k <= |history|
  {
    if k == 0 then map[] else Apply(ObjectsAfter(history, k - 1), history[k - 1])
  }

  ghost predicate LegalAt(history: seq<Change>, k: nat)
    requires k < |history|
  {
    Applicable(ObjectsAfter(history, k), history[k])
  }

  ghost predicate Legal(history: seq<Change>) {
    forall k :: 0 <= k < |history| ==> LegalAt(history, k)
  }

  // The master's state after k changes, its signal for change k, and its snapshot.
  ghost function MasterAfter(history: seq<Change>, k: nat): Master
    requires k <= |history|
  {
    Master(VersionAfter(k), ObjectsAfter(history, k))
  }

  ghost function SignalOf(history: seq<Change>, k: nat): Delta
    requires k < |history|
  {
    Delta(history[k], VersionAfter(k + 1))
  }

  ghost function ReplicaAfter(history: seq<Change>, k: nat): Replica
    requires k <= |history|
  {
    Replica(VersionAfter(k), ObjectsAfter(history, k))
  }

  lemma {:induction false} HistoryGrows(history: seq<Change>, c: Change, k: nat)
    requires k <= |history|
    ensures ObjectsAfter(history + [c], k) == ObjectsAfter(history, k)
  {
    if k > 0 {
      HistoryGrows(history, c, k - 1);
    }
  }

  // Change k of the longer history is legal: an old one, or c itself.
  lemma LegalAtGrows(history: seq<Change>, c: Change, k: nat)
    requires k <= |history|
    requires if k < |history| then LegalAt(history, k) else Applicable(ObjectsAfter(history, k), c)
    ensures LegalAt(history + [c], k)
  {
    HistoryGrows(history, c, k);
    assert (history + [c])[k] == if k < |history| then history[k] else c;
  }

  lemma LegalGrows(history: seq<Change>, c: Change)
    requires Legal(history) && Applicable(ObjectsAfter(history, |history|), c)
    ensures Legal(history + [c])
  {
    hide ObjectsAfter, Applicable, LegalAt;
    forall k | 0 <= k < |history + [c]|
      ensures LegalAt(history + [c], k)
    {
      LegalAtGrows(history, c, k);
    }
  }

  lemma LastChangeApplied(history: seq<Change>, c: Change)
    ensures ObjectsAfter(history + [c], |history| + 1) == Apply(ObjectsAfter(history, |history|), c)
  {
    HistoryGrows(history, c, |history|);
  }

  lemma {:induction false} NoReservedKey(history: seq<Change>, k: nat)
    requires Legal(history) && k <= |history|
    ensures VERSION_KEY !in ObjectsAfter(history, k)
  {
    if k > 0 {
      NoReservedKey(history, k - 1);
      assert LegalAt(history, k - 1);
    }
  }

  /** A replica that stands after change k accepts the signal of change j exactly when j and k are
      a whole number of cycles apart; for j == k it then stands after change k + 1, without
      complaint.  In particular a replica that misses change k ignores the next CYCLE - 1. */
  lemma SignalAccepted(history: seq<Change>, k: nat, j: nat)
    requires Legal(history) && k <= |history| && j < |history|
    ensures Accepts(ReplicaAfter(history, k), SignalOf(history, j).version) <==> (j - k) % CYCLE == 0
    ensures j == k ==> Receive(ReplicaAfter(history, k), SignalOf(history, j)) == ReplicaAfter(history, k + 1)
    ensures j == k ==> !Complains(ReplicaAfter(history, k), SignalOf(history, j))
  {
    VersionInRange(k);
    VersionsCoincide(j + 1, k + 1);
    if j == k {
      assert LegalAt(history, k);
    }
  }

  // The hypothesis of the safety result: no signal is delivered to a replica that stands one or
  // more whole version cycles away from it.
  ghost predicate NotCyclesApart(j: int, k: int) {
    (j - k) % CYCLE == 0 ==> j == k
  }

  // A history of registrations only: what was registered before change k still is after it.
  lemma {:induction false} RegisteredStays(history: seq<Change>, j: nat, k: nat)
    requires forall c :: c in history ==> c.Added?
    requires j < k <= |history|
    ensures history[j].path in ObjectsAfter(history, k)
  {
    if j < k - 1 {
      RegisteredStays(history, j, k - 1);
    }
  }

  lemma {:induction false} RegisteredBefore(history: seq<Change>, k: nat, path: string) returns (j: nat)
    requires forall c :: c in history ==> c.Added?
    requires k <= |history| && path in ObjectsAfter(history, k)
    ensures j < k && history[j].path == path
  {
    if history[k - 1].path == path {
      j := k - 1;
    } else {
      j := RegisteredBefore(history, k - 1, path);
    }
  }

  lemma RegisteredOnce(history: seq<Change>, j: nat, k: nat)
    requires Legal(history) && forall c :: c in history ==> c.Added?
    requires j < k < |history|
    ensures history[j].path != history[k].path
  {
    RegisteredStays(history, j, k);
    assert LegalAt(history, k);
  }

  /** Without the hypothesis the safety result fails: in a history of registrations, a replica that
      is a whole cycle behind takes the signal of a later one, and then holds a map the master never
      had. */
  lemma StaleByACycle(history: seq<Change>, k: nat, n: nat)
    requires Legal(history) && forall c :: c in history ==> c.Added?
    requires k + CYCLE < |history| && n <= |history|
    ensures var r, d := ReplicaAfter(history, k), SignalOf(history, k + CYCLE);
            Accepts(r, d.version) && Receive(r, d).objects != ObjectsAfter(history, n)
  {
    var late := k + CYCLE;
    var objects := Receive(ReplicaAfter(history, k), SignalOf(history, late)).objects;
    SignalAccepted(history, k, late);
    assert history[late].path in objects;
    if objects == ObjectsAfter(history, n) {
      var j := RegisteredBefore(history, n, history[late].path);
      if j != late {
        RegisteredOnce(history, if j < late then j else late, if j < late then late else j);
      }
      RegisteredStays(history, k, n);
      assert history[k].path in objects;
      RegisteredOnce(history, k, late);
      j := RegisteredBefore(history, k, history[k].path);
      RegisteredOnce(history, j, k);
    }
  }

  // The registrations of the objects /0, /1, /2, ...
  ghost function Registrations(n: nat): seq<Change> {
    seq(n, k requires 0 <= k < n => Added("/" + Numeral(k), "service"))
  }

  /** There are such histories, of every length. */
  lemma RegistrationsLegal(n: nat)
    ensures Legal(Registrations(n)) && forall c :: c in Registrations(n) ==> c.Added?
  {
    var history := Registrations(n);
    forall k | 0 <= k < n
      ensures LegalAt(history, k)
    {
      assert history[k].path[0] == '/' && history[k].path[1..] == Numeral(k);
      if history[k].path in ObjectsAfter(history, k) {
        var j := RegisteredBefore(history, k, history[k].path);
        assert history[j].path[1..] == Numeral(j);
        NumeralRoundTrip(j);
        NumeralRoundTrip(k);
      }
    }
  }

  /** A replica with the first snapshot that misses a cycle of registrations and takes the next. */
  lemma SafetyNeedsTheHypothesis(n: nat)
    requires n <= CYCLE + 1
    ensures var history := Registrations(CYCLE + 1);
            && Legal(history)
            && Receive(ReplicaAfter(history, 0), SignalOf(history, CYCLE)) != ReplicaAfter(history, n)
  {
    RegistrationsLegal(CYCLE + 1);
    StaleByACycle(Registrations(CYCLE + 1), 0, n);
  }

  /** A snapshot taken after change k, however late it arrives. */
  lemma SnapshotTaken(history: seq<Change>, r: Replica, k: nat)
    requires Legal(history) && k <= |history|
    ensures UpdateObjects(r, GetObjects(MasterAfter(history, k)))
            == if r.HasValidObjects() then r else ReplicaAfter(history, k)
  {
    VersionInRange(k);
    NoReservedKey(history, k);
    if !r.HasValidObjects() {
      SnapshotRoundTrip(r, MasterAfter(history, k));
    }
  }
}
