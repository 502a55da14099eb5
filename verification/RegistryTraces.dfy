/**
 Sequences of requests to the registry's master: who owns an object path after them, and what is
 announced.
 */
module RegistryTraces {

  import opened Wrappers
  import opened ObjectRegistry
  import opened RegistryRuns

  // The master after a sequence of requests, and the signals it emitted.
  ghost function Outcome(trace: seq<Request>): Master {
    if trace == [] then Master(INITIAL_REGISTRY_VERSION, map[])
    else Serve(Outcome(trace[..|trace| - 1]), trace[|trace| - 1]).0
  }

  ghost function Emitted(trace: seq<Request>): seq<Delta> {
    if trace == [] then []
    else
      var before := trace[..|trace| - 1];
      match Serve(Outcome(before), trace[|trace| - 1]).1
      case None => Emitted(before)
      case Some(d) => Emitted(before) + [d]
  }

  // The service of request k found the path free, and has not given it back.
  ghost predicate Holds(trace: seq<Request>, k: int, path: string, service: string) {
    && 0 <= k < |trace| && trace[k] == Registration(path, service)
    && path != "" && service != "" && path !in Outcome(trace[..k]).objects
    && Unregistration(path, service) !in trace[k + 1..]
  }

  ghost predicate Owns(trace: seq<Request>, path: string, service: string) {
    exists k :: Holds(trace, k, path, service)
  }

  lemma HoldsBefore(trace: seq<Request>, k: int, path: string, service: string)
    requires trace != [] && k < |trace| - 1
    ensures var before := trace[..|trace| - 1];
            Holds(trace, k, path, service)
            <==> Holds(before, k, path, service) && trace[|trace| - 1] != Unregistration(path, service)
  {
    var before, last := trace[..|trace| - 1], trace[|trace| - 1];
    if 0 <= k {
      assert before[..k] == trace[..k];
      assert trace[k + 1..] == before[k + 1..] + [last];
    }
  }

  /** After any sequence of registrations and unregistrations a path is mapped to exactly the service
      that found it free, if that has not unregistered it since. */
  lemma {:induction false} ObjectsAreOwned(trace: seq<Request>, path: string, service: string)
    ensures path in Outcome(trace).objects && Outcome(trace).objects[path] == service <==> Owns(trace, path, service)
    decreases |trace|
  {
    if trace != [] {
      var n := |trace| - 1;
      var before, last := trace[..n], trace[n];
      ObjectsAreOwned(before, path, service);
      if k :| Holds(before, k, path, service) && last != Unregistration(path, service) {
        HoldsBefore(trace, k, path, service);
      } else if k :| Holds(trace, k, path, service) {
        if k < n {
          HoldsBefore(trace, k, path, service);
        }
      }
      if last == Registration(path, service) && path != "" && service != "" && path !in Outcome(before).objects {
        assert trace[n + 1..] == [];
        assert Holds(trace, n, path, service);
      }
    }
  }

  /** A registration succeeds exactly for a free path, with nonempty names, an unregistration exactly
      for the owner; a success is announced with exactly this path and service and the next version,
      a failure changes nothing. */
  lemma RequestEffect(trace: seq<Request>, request: Request)
    ensures var m, m' := Outcome(trace), Outcome(trace + [request]);
            var path, service := request.path, request.service;
            var fits := if request.Registration? then path != "" && service != "" && path !in m.objects
                        else Owns(trace, path, service);
            var change := if request.Registration? then Added(path, service) else Removed(path);
            && (fits ==> Emitted(trace + [request]) == Emitted(trace) + [Delta(change, m'.version)])
            && (fits ==> m'.version == NextVersion(m.version))
            && (!fits ==> m' == m && Emitted(trace + [request]) == Emitted(trace))
  {
    assert (trace + [request])[..|trace|] == trace;
    ObjectsAreOwned(trace, request.path, request.service);
  }

  /** The signals emitted are the history of the map: replayed in order they lead to it. */
  lemma {:induction false} EmittedIsHistory(trace: seq<Request>)
    requires forall r :: r in trace ==> ValidRequest(r)
    ensures MasterInvariant(Outcome(trace), Emitted(trace))
    decreases |trace|
  {
    if trace != [] {
      var n := |trace| - 1;
      EmittedIsHistory(trace[..n]);
      assert trace[n] in trace;
      hide MasterInvariant;
      ServeKeepsInvariant(Outcome(trace[..n]), Emitted(trace[..n]), trace[n]);
    }
  }
}
