/** Reconciliation of the pool with the pod list (app/services/worker_pool/k8s.py,
    discover_workers, from the moment the list is read), with no other pool operation in between. */
module K8sDiscovery {
  import opened Options
  import opened RedisState
  import opened WorkerPool

  datatype Pod = Pod(name: WorkerId, ip: string, deleting: bool, conditions: seq<(string, string)>)

  type Pool = map<WorkerId, Rec>

  /** conditions.get("ContainersReady") == "True"; a later condition of one type replaces an earlier. */
  predicate ContainersReady(cs: seq<(string, string)>) {
    cs != [] &&
    var last := cs[|cs| - 1];
    if last.0 == "ContainersReady" then last.1 == "True" else ContainersReady(cs[..|cs| - 1])
  }

  predicate Admitted(p: Pod) {
    !p.deleting && p.ip != "" && ContainersReady(p.conditions)
  }

  /** Address of each discovered pod; a later pod of one name replaces an earlier. */
  function Addresses(pods: seq<Pod>): map<WorkerId, string> {
    if pods == [] then map[]
    else
      var p := pods[|pods| - 1];
      var m := Addresses(pods[..|pods| - 1]);
      if Admitted(p) then m[p.name := p.ip] else m
  }

  function HostOf(ip: string, port: string): string {
    ip + ":" + port
  }

  /** An idle worker takes the new address; one that the local cache shows on a call keeps its own. */
  function Refreshed(r: Rec, ip: string, port: string): Rec {
    if r.ip != Some(ip) && r.sid == None then r.(ip := Some(ip), host := HostOf(ip, port)) else r
  }

  function NewWorker(w: WorkerId, ip: string, port: string): Rec {
    Rec(w, HostOf(ip, port), Some(ip), None, None, 0)
  }

  /** _has_active_call: the local cache, then Redis (also when Redis cannot be asked). */
  predicate HasActiveCall(r: Rec, redisBusy: WorkerId -> bool) {
    r.sid.Some? || redisBusy(r.id)
  }

  /** A pod that is listed: refreshed when known, new otherwise. */
  function Listed(m: Pool, w: WorkerId, ip: string, port: string): Rec {
    if w in m then Refreshed(m[w], ip, port) else NewWorker(w, ip, port)
  }

  function Discover(m: Pool, pods: seq<Pod>, redisBusy: WorkerId -> bool, port: string): Pool {
    var found := Addresses(pods);
    (map w | w in found :: Listed(m, w, found[w], port))
    + (map w | w in m && w !in found && HasActiveCall(m[w], redisBusy) :: m[w])
  }

  // ------------------------------------------------------------------
  // Properties
  // ------------------------------------------------------------------

  /** Pod k is the last admitted listing of w. */
  predicate IsLatest(pods: seq<Pod>, k: nat, w: WorkerId)
    requires k < |pods|
  {
    pods[k].name == w && Admitted(pods[k]) && forall j :: k < j < |pods| && pods[j].name == w ==> !Admitted(pods[j])
  }

  /** A pod is admitted exactly when it is not being deleted, has an address, and its last ContainersReady
      condition is true. */
  lemma AdmittedExactlyWhen(p: Pod)
    ensures Admitted(p) <==> !p.deleting && p.ip != "" && exists k :: IsLastReady(p.conditions, k)
  {
    ReadyMeans(p.conditions);
  }

  predicate IsLastReady(cs: seq<(string, string)>, k: int) {
    0 <= k < |cs| && cs[k] == ("ContainersReady", "True") && forall j :: k < j < |cs| ==> cs[j].0 != "ContainersReady"
  }

  lemma {:induction false} ReadyMeans(cs: seq<(string, string)>)
    ensures ContainersReady(cs) <==> exists k :: IsLastReady(cs, k)
  {
    if cs != [] {
      var n := |cs| - 1;
      ReadyMeans(cs[..n]);
      if cs[n].0 == "ContainersReady" {
        if cs[n].1 == "True" { assert IsLastReady(cs, n); }
      } else {
        if k :| IsLastReady(cs[..n], k) { assert IsLastReady(cs, k); }
        if k :| IsLastReady(cs, k) { assert IsLastReady(cs[..n], k); }
      }
    }
  }

  lemma {:induction false} FoundExactlyAdmitted(pods: seq<Pod>, w: WorkerId)
    ensures w in Addresses(pods) <==> exists k :: 0 <= k < |pods| && pods[k].name == w && Admitted(pods[k])
    ensures w in Addresses(pods) ==>
              exists k :: 0 <= k < |pods| && IsLatest(pods, k, w) && Addresses(pods)[w] == pods[k].ip
  {
    if pods != [] {
      var n := |pods| - 1;
      FoundExactlyAdmitted(pods[..n], w);
      if pods[n].name == w && Admitted(pods[n]) {
      } else if w in Addresses(pods[..n]) {
        var k :| 0 <= k < n && IsLatest(pods[..n], k, w) && Addresses(pods[..n])[w] == pods[..n][k].ip;
        assert pods[k] == pods[..n][k];
        assert forall j :: k < j < n ==> pods[..n][j] == pods[j];
        assert IsLatest(pods, k, w);
      } else {
        assert forall k :: 0 <= k < n ==> pods[..n][k] == pods[k];
      }
    }
  }

  /** The pool is exactly the admitted pods and the vanished ones with an active call. */
  lemma PoolIsDiscoveredPlusDraining(m: Pool, pods: seq<Pod>, redisBusy: WorkerId -> bool, port: string, w: WorkerId)
    ensures w in Discover(m, pods, redisBusy, port) <==>
              || (exists k :: 0 <= k < |pods| && pods[k].name == w && Admitted(pods[k]))
              || (w in m && HasActiveCall(m[w], redisBusy))
  {
    FoundExactlyAdmitted(pods, w);
  }

  /** A vanished worker is kept exactly when the local cache shows it on a call, or Redis does (or cannot be
      asked). */
  lemma VanishedIsKeptExactlyWhen(
    m: Pool, pods: seq<Pod>, redisBusy: WorkerId -> bool, port: string, w: WorkerId)
    requires w in m && m[w].id == w && forall k :: 0 <= k < |pods| && pods[k].name == w ==> !Admitted(pods[k])
    ensures w in Discover(m, pods, redisBusy, port) <==> m[w].sid != None || redisBusy(w)
    ensures w in Discover(m, pods, redisBusy, port) ==> Discover(m, pods, redisBusy, port)[w] == m[w]
  {
    FoundExactlyAdmitted(pods, w);
  }

  /** A kept worker keeps its call, its assignment time and its failure count. */
  lemma KeptWorkersKeepState(m: Pool, pods: seq<Pod>, redisBusy: WorkerId -> bool, port: string, w: WorkerId)
    requires w in m && w in Discover(m, pods, redisBusy, port)
    ensures var r := Discover(m, pods, redisBusy, port)[w];
            r.id == m[w].id && r.sid == m[w].sid && r.assignedAt == m[w].assignedAt && r.failures == m[w].failures
  {
  }

  /** A discovered worker that is not on a call is reached at its pod's address; a new one starts idle
      and without failures. */
  lemma DiscoveredWorkersFollowTheirPods(
    m: Pool, pods: seq<Pod>, redisBusy: WorkerId -> bool, port: string, w: WorkerId)
    requires w in Addresses(pods) && (w in m ==> m[w].sid == None)
    ensures var r := Discover(m, pods, redisBusy, port)[w];
            && r.ip == Some(Addresses(pods)[w])
            && (w !in m ==>
                  && r.id == w && r.sid == None && r.assignedAt == None && r.failures == 0
                  && r.host == Addresses(pods)[w] + ":" + port)
  {
  }

  ghost predicate Reachable(m: Pool, port: string) {
    forall w :: w in m && m[w].ip.Some? ==> m[w].host == m[w].ip.value + ":" + port
  }

  /** Host and address never come apart, over any number of discoveries. */
  lemma {:induction false} RoundsKeepReachable(m: Pool, rounds: seq<Round>, port: string)
    requires Reachable(m, port)
    ensures Reachable(Rounds(m, rounds, port), port)
    decreases |rounds|
  {
    hide Addresses;
    if rounds != [] {
      RoundsKeepReachable(Discover(m, rounds[0].pods, rounds[0].redisBusy, port), rounds[1..], port);
    }
  }

  lemma ListedTwice(m: Pool, m': Pool, w: WorkerId, ip: string, port: string)
    requires w in m' && m'[w] == Listed(m, w, ip, port)
    ensures Listed(m', w, ip, port) == m'[w]
  {
  }

  /** A second reading of the same list changes nothing. */
  lemma DiscoveryIsFixpoint(m: Pool, pods: seq<Pod>, redisBusy: WorkerId -> bool, port: string)
    ensures var m' := Discover(m, pods, redisBusy, port); Discover(m', pods, redisBusy, port) == m'
  {
    hide Addresses, Listed, HasActiveCall;
    var found, m' := Addresses(pods), Discover(m, pods, redisBusy, port);
    forall w | w in found ensures Listed(m', w, found[w], port) == m'[w] {
      ListedTwice(m, m', w, found[w], port);
    }
    var m2 := Discover(m', pods, redisBusy, port);
    assert m2.Keys == m'.Keys;
    assert forall w :: w in m' ==> m2[w] == m'[w];
  }

  datatype Round = Round(pods: seq<Pod>, redisBusy: WorkerId -> bool)

  function Rounds(m: Pool, rounds: seq<Round>, port: string): Pool
    decreases |rounds|
  {
    if rounds == [] then m else Rounds(Discover(m, rounds[0].pods, rounds[0].redisBusy, port), rounds[1..], port)
  }

  /** A worker that the local cache shows on a call stays, with its address, through any number of
      discoveries with any pod lists. */
  lemma {:induction false} BusyAddressNeverChanges(m: Pool, rounds: seq<Round>, port: string, w: WorkerId)
    requires w in m && m[w].sid.Some?
    ensures w in Rounds(m, rounds, port) && Rounds(m, rounds, port)[w] == m[w]
    decreases |rounds|
  {
    if rounds != [] {
      BusyAddressNeverChanges(Discover(m, rounds[0].pods, rounds[0].redisBusy, port), rounds[1..], port, w);
    }
  }

  lemma RefreshKeepsId(r: Rec, ip: string, port: string)
    ensures Refreshed(r, ip, port).id == r.id
  {
  }

  /** The two loops of the reconciliation: add or refresh the discovered, then drop the stale. */
  function ListAll(m: Pool, found: map<WorkerId, string>, port: string): Pool {
    map w | w in m.Keys + found.Keys :: if w in found then Listed(m, w, found[w], port) else m[w]
  }

  function Pruned(m: Pool, found: set<WorkerId>, redisBusy: WorkerId -> bool): Pool {
    map w | w in m && (w in found || HasActiveCall(m[w], redisBusy)) :: m[w]
  }

  lemma ListedThenPruned(m: Pool, pods: seq<Pod>, redisBusy: WorkerId -> bool, port: string)
    ensures Pruned(ListAll(m, Addresses(pods), port), Addresses(pods).Keys, redisBusy)
            == Discover(m, pods, redisBusy, port)
  {
    hide Addresses, Listed, HasActiveCall;
    var p := Pruned(ListAll(m, Addresses(pods), port), Addresses(pods).Keys, redisBusy);
    var d := Discover(m, pods, redisBusy, port);
    assert p.Keys == d.Keys;
    assert forall w :: w in d ==> p[w] == d[w];
  }

  // ------------------------------------------------------------------
  // The pool object
  // ------------------------------------------------------------------

  class K8sWorkerPool {
    const port: string
    var workers: map<WorkerId, WorkerStatus>

    ghost predicate Valid()
      reads this, workers.Values
    {
      forall w :: w in workers ==> workers[w].id == w
    }

    ghost function View(): Pool
      reads this, workers.Values
    {
      map w | w in workers :: workers[w].View()
    }

    constructor (port: string)
      ensures Valid() && workers == map[] && this.port == port
    {
      this.port := port;
      workers := map[];
    }

    method ReadPods(pods: seq<Pod>) returns (found: map<WorkerId, string>)
      ensures found == Addresses(pods)
    {
      found := map[];
      var i := 0;
      while i < |pods|
        invariant 0 <= i <= |pods| && found == Addresses(pods[..i])
      {
        assert pods[..i + 1][..i] == pods[..i];
        if Admitted(pods[i]) {
          found := found[pods[i].name := pods[i].ip];
        }
        i := i + 1;
      }
      assert pods[..i] == pods;
    }

    method DiscoverWorkers(pods: seq<Pod>, redisBusy: WorkerId -> bool)
      requires Valid()
      modifies this, workers.Values
      ensures Valid() && View() == Discover(old(View()), pods, redisBusy, port)
    {
      hide View, Valid, Discover, Addresses, ListAll, Pruned;
      ListedThenPruned(View(), pods, redisBusy, port);
      var found := ReadPods(pods);
      AddOrUpdate(found);
      RemoveStale(found, redisBusy);
    }

    /** The address part of an update. */
    method Refresh(existing: WorkerStatus, ip: string)
      modifies existing
      ensures existing.View() == Refreshed(old(existing.View()), ip, port)
    {
      if existing.ip != Some(ip) && existing.sid == None {
        existing.ip := Some(ip);
        existing.host := HostOf(ip, port);
      }
    }

    /** One discovered pod: a new worker, or the known one refreshed; every other worker as it was. */
    method ListPod(name: WorkerId, ip: string, ghost m: Pool)
      requires Valid() && (name in workers <==> name in m) && (name in m ==> workers[name].View() == m[name])
      modifies this, workers.Values
      ensures Valid() && workers.Keys == old(workers).Keys + {name}
      ensures forall w :: w in old(workers) ==> workers[w] == old(workers)[w]
      ensures name !in old(workers) ==> fresh(workers[name])
      ensures workers[name].View() == Listed(m, name, ip, port)
      ensures forall w :: w in old(workers) && w != name ==> workers[w].View() == old(workers[w].View())
    {
      hide Refreshed;
      if name !in workers {
        var w := new WorkerStatus(name, HostOf(ip, port), Some(ip));
        workers := workers[name := w];
      } else {
        assert old(workers[name].View()).id == name;
        RefreshKeepsId(old(workers[name].View()), ip, port);
        Refresh(workers[name], ip);
        assert workers[name].View().id == name;
      }
    }

    method AddOrUpdate(found: map<WorkerId, string>)
      requires Valid()
      modifies this, workers.Values
      ensures Valid() && View() == ListAll(old(View()), found, port)
    {
      hide Listed, Valid, WorkerStatus.View;
      ghost var m := View();
      UpdateEach(found, m);
      assert View().Keys == ListAll(m, found, port).Keys;
      assert forall w :: w in View() ==> View()[w] == ListAll(m, found, port)[w];
    }

    method UpdateEach(found: map<WorkerId, string>, ghost m: Pool)
      requires Valid() && m.Keys == workers.Keys && forall w :: w in m ==> workers[w].View() == m[w]
      modifies this, workers.Values
      ensures Valid() && workers.Keys == m.Keys + found.Keys
      ensures forall w :: w in found ==> workers[w].View() == Listed(m, w, found[w], port)
      ensures forall w :: w in m && w !in found ==> workers[w].View() == m[w]
    {
      hide Listed, Valid, WorkerStatus.View;
      var todo := found.Keys;
      while todo != {}
        invariant todo <= found.Keys && Valid()
        invariant forall w :: w in workers <==> w in old(workers) || (w in found && w !in todo)
        invariant forall w :: w in old(workers) ==> workers[w] == old(workers)[w]
        invariant forall w :: w in workers && w !in old(workers) ==> fresh(workers[w])
        invariant forall w :: w in found && w !in todo ==> workers[w].View() == Listed(m, w, found[w], port)
        invariant forall w :: w in old(workers) && (w !in found || w in todo) ==> workers[w].View() == m[w]
        decreases todo
      {
        var name :| name in todo;
        todo := todo - {name};
        ListPod(name, found[name], m);
      }
    }

    method RemoveStale(found: map<WorkerId, string>, redisBusy: WorkerId -> bool)
      requires Valid()
      modifies `workers
      ensures Valid() && View() == Pruned(old(View()), found.Keys, redisBusy)
    {
      hide HasActiveCall;
      ghost var m := View();
      RemoveEach(found, redisBusy, m);
      assert View().Keys == Pruned(m, found.Keys, redisBusy).Keys;
    }

    method RemoveEach(found: map<WorkerId, string>, redisBusy: WorkerId -> bool, ghost m: Pool)
      requires Valid() && m.Keys == workers.Keys && forall w :: w in m ==> workers[w].View() == m[w]
      modifies `workers
      ensures Valid()
      ensures forall w :: w in workers <==> w in m && (w in found || HasActiveCall(m[w], redisBusy))
      ensures forall w :: w in workers ==> workers[w] == old(workers)[w]
    {
      var stale := workers.Keys - found.Keys;
      while stale != {}
        invariant stale <= workers.Keys - found.Keys && workers.Keys <= m.Keys
        invariant forall w :: w in workers ==> workers[w] == old(workers)[w]
        invariant forall w :: w in m && w !in stale ==> (w in workers <==> w in found || HasActiveCall(m[w], redisBusy))
        decreases stale
      {
        var name :| name in stale;
        stale := stale - {name};
        var existing := workers[name];
        if !(existing.sid.Some? || redisBusy(existing.id)) {
          workers := workers - {name};
        }
      }
    }
  }
}
