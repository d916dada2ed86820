/** The worker pool of app/services/worker_pool/base.py in single-process mode.

    Each region under the asyncio lock never awaits, so it is one atomic step and one method here.
    `Rec` is the value of a WorkerStatus; the pool methods are proved to compute functions on the
    sequence of those values, in the insertion order of the `workers` dict. */
module WorkerPool {
  import opened Options
  import opened RedisState

  /** _STARTUP_GRACE_SECONDS */
  const GRACE: real := 90.0

  datatype Rec = Rec(
    id: WorkerId,
    host: string,
    ip: Option<string>,
    sid: Option<CallId>,
    assignedAt: Option<real>,
    failures: nat)

  /** is_accepting_calls */
  predicate Accepting(r: Rec) {
    r.sid == None && r.failures < 3
  }

  /** First accepting worker in pool order, or the length of the pool. */
  function FirstAccepting(ws: seq<Rec>): (k: nat)
    ensures k <= |ws|
    ensures forall j :: 0 <= j < k ==> !Accepting(ws[j])
    ensures k < |ws| ==> Accepting(ws[k])
  {
    if ws == [] || Accepting(ws[0]) then 0 else 1 + FirstAccepting(ws[1..])
  }

  /** First worker that holds s, or the length of the pool. */
  function Holder(ws: seq<Rec>, s: CallId): (k: nat)
    ensures k <= |ws|
    ensures forall j :: 0 <= j < k ==> ws[j].sid != Some(s)
    ensures k < |ws| ==> ws[k].sid == Some(s)
  {
    if ws == [] || ws[0].sid == Some(s) then 0 else 1 + Holder(ws[1..], s)
  }

  function Assigned(ws: seq<Rec>, s: CallId, now: real): seq<Rec> {
    var k := FirstAccepting(ws);
    if k < |ws| then ws[k := ws[k].(sid := Some(s), assignedAt := Some(now))] else ws
  }

  function AssignedTo(ws: seq<Rec>): Option<WorkerId> {
    var k := FirstAccepting(ws);
    if k < |ws| then Some(ws[k].id) else None
  }

  function LookedUp(ws: seq<Rec>, s: CallId): Option<WorkerId> {
    var k := Holder(ws, s);
    if k < |ws| then Some(ws[k].id) else None
  }

  function Reassigned(ws: seq<Rec>, o: CallId, n: CallId): seq<Rec> {
    var k := Holder(ws, o);
    if k < |ws| then ws[k := ws[k].(sid := Some(n))] else ws
  }

  function Released(ws: seq<Rec>, s: CallId): seq<Rec> {
    var k := Holder(ws, s);
    if k < |ws| then ws[k := ws[k].(sid := None, assignedAt := None)] else ws
  }

  /** What a health probe brings back: no usable answer, or a body whose `current_call` is missing
      (also when it is not JSON), null, or a call id. */
  datatype Probe = Failed | Answered(current: Option<Option<CallId>>)

  /** Age of an assignment as the health reader computes it. */
  function Age(r: Rec, now: real): real {
    if r.assignedAt.Some? then now - r.assignedAt.value else GRACE + 1.0
  }

  predicate FreesStale(r: Rec, p: Probe, now: real) {
    p == Answered(Some(None)) && r.sid.Some? && Age(r, now) > GRACE
  }

  predicate AdoptsReported(r: Rec, p: Probe, now: real) {
    p.Answered? && p.current.Some? && p.current.value.Some? && r.sid.Some? && p.current.value != r.sid
    && Age(r, now) > GRACE
  }

  function AfterProbe(r: Rec, p: Probe, now: real): Rec {
    if p == Failed then r.(failures := r.failures + 1)
    else
      var r1 := r.(failures := 0);
      if FreesStale(r, p, now) then r1.(sid := None, assignedAt := None)
      else if AdoptsReported(r, p, now) then r1.(sid := p.current.value)
      else r1
  }

  // ------------------------------------------------------------------
  // What the operations mean, read off the records alone
  // ------------------------------------------------------------------

  /** Worker k is the first in the pool that is on no call and has failed fewer than three probes in a row. */
  predicate FirstClaimable(ws: seq<Rec>, k: nat) {
    && k < |ws| && ws[k].sid == None && ws[k].failures < 3
    && forall j :: 0 <= j < k ==> ws[j].sid.Some? || ws[j].failures >= 3
  }

  /** Worker k is the first in the pool that holds s. */
  predicate FirstHolding(ws: seq<Rec>, s: CallId, k: nat) {
    k < |ws| && ws[k].sid == Some(s) && forall j :: 0 <= j < k ==> ws[j].sid != Some(s)
  }

  /** A call goes to the first idle healthy worker and to no other; to none exactly when there is none. */
  lemma AssignMeans(ws: seq<Rec>, s: CallId, now: real)
    ensures AssignedTo(ws) == None <==> forall k :: 0 <= k < |ws| ==> ws[k].sid.Some? || ws[k].failures >= 3
    ensures forall k: nat :: FirstClaimable(ws, k) ==> AssignedTo(ws) == Some(ws[k].id)
    ensures |Assigned(ws, s, now)| == |ws|
    ensures forall k: nat :: k < |ws| ==>
              Assigned(ws, s, now)[k] ==
              if FirstClaimable(ws, k) then ws[k].(sid := Some(s), assignedAt := Some(now)) else ws[k]
  {
    var k := FirstAccepting(ws);
    if k < |ws| { assert FirstClaimable(ws, k); }
  }

  /** A lookup finds the first holder, a reassign renames it alone, a release frees it alone. */
  lemma HolderOperationsMean(ws: seq<Rec>, s: CallId, n: CallId)
    ensures LookedUp(ws, s) == None <==> forall k :: 0 <= k < |ws| ==> ws[k].sid != Some(s)
    ensures forall k: nat :: FirstHolding(ws, s, k) ==> LookedUp(ws, s) == Some(ws[k].id)
    ensures |Reassigned(ws, s, n)| == |Released(ws, s)| == |ws|
    ensures forall k: nat :: k < |ws| ==>
              Reassigned(ws, s, n)[k] == if FirstHolding(ws, s, k) then ws[k].(sid := Some(n)) else ws[k]
    ensures forall k: nat :: k < |ws| ==>
              Released(ws, s)[k] == if FirstHolding(ws, s, k) then ws[k].(sid := None, assignedAt := None) else ws[k]
  {
    var k := Holder(ws, s);
    if k < |ws| { assert FirstHolding(ws, s, k); }
  }

  /** The assignment is older than 90 seconds, or its time is unknown. */
  predicate GraceOver(r: Rec, now: real) {
    r.assignedAt.Some? ==> now - r.assignedAt.value > 90.0
  }

  /** One probe: a failure counts and changes nothing else; an answer resets the count.  A null answer frees
      a worker whose grace is over, another id renames it, and nothing else changes a call. */
  lemma ProbeMeans(r: Rec, p: Probe, now: real)
    ensures p == Failed ==> AfterProbe(r, p, now) == r.(failures := r.failures + 1)
    ensures var r' := AfterProbe(r, p, now);
            p != Failed ==>
              && r'.failures == 0 && r'.id == r.id && r'.host == r.host && r'.ip == r.ip
              && (r.sid == None || !GraceOver(r, now) || p.current == None ==>
                    r'.sid == r.sid && r'.assignedAt == r.assignedAt)
              && (r.sid.Some? && GraceOver(r, now) && p.current.Some? ==>
                    && r'.sid == p.current.value
                    && r'.assignedAt == if p.current.value == None then None else r.assignedAt)
  {
  }

  function AfterProbes(r: Rec, ps: seq<(Probe, real)>): Rec {
    if ps == [] then r
    else var n := |ps| - 1; AfterProbe(AfterProbes(r, ps[..n]), ps[n].0, ps[n].1)
  }

  /** The last k probes failed. */
  predicate LastFailed(ps: seq<(Probe, real)>, k: nat) {
    k <= |ps| && forall i :: |ps| - k <= i < |ps| ==> ps[i].0 == Failed
  }

  /** The failure count is the number of failed probes since the last answer. */
  lemma {:induction false} FailuresCount(r: Rec, ps: seq<(Probe, real)>, k: nat)
    requires LastFailed(ps, k)
    ensures AfterProbes(r, ps).failures >= k
    ensures k == |ps| ==> AfterProbes(r, ps).failures == r.failures + k
    ensures k < |ps| && ps[|ps| - 1 - k].0 != Failed ==> AfterProbes(r, ps).failures == k
  {
    if ps != [] {
      var n := |ps| - 1;
      var before := AfterProbes(r, ps[..n]);
      ProbeMeans(before, ps[n].0, ps[n].1);
      if k > 0 {
        FailuresCount(r, ps[..n], k - 1);
      }
    }
  }

  /** From a worker without failures, over any probes at any times: it counts as unhealthy exactly when the
      last three probes failed. */
  lemma UnhealthyExactlyAfterThree(r: Rec, ps: seq<(Probe, real)>)
    requires r.failures == 0
    ensures AfterProbes(r, ps).failures >= 3 <==> LastFailed(ps, 3)
  {
    if LastFailed(ps, 3) {
      FailuresCount(r, ps, 3);
    } else if LastFailed(ps, 2) {
      FailuresCount(r, ps, 2);
    } else if LastFailed(ps, 1) {
      FailuresCount(r, ps, 1);
    } else {
      FailuresCount(r, ps, 0);
    }
  }

  class WorkerStatus {
    const id: WorkerId
    var host: string
    var ip: Option<string>
    var sid: Option<CallId>
    var assignedAt: Option<real>
    var failures: nat

    function View(): Rec
      reads this
    {
      Rec(id, host, ip, sid, assignedAt, failures)
    }

    constructor (id: WorkerId, host: string, ip: Option<string>)
      ensures View() == Rec(id, host, ip, None, None, 0)
    {
      this.id, this.host, this.ip := id, host, ip;
      sid, assignedAt, failures := None, None, 0;
    }

    /** health_check_worker after the response is in; the result is the pair handed to a Redis
        release, if any. */
    method HealthCheck(p: Probe, now: real) returns (stale: Option<CallId>)
      modifies this
      ensures View() == AfterProbe(old(View()), p, now)
      ensures stale == if FreesStale(old(View()), p, now) then old(sid) else None
    {
      stale := None;
      if p.Failed? {
        failures := failures + 1;
        return;
      }
      failures := 0;
      if sid.Some? {
        var age := if assignedAt.Some? then now - assignedAt.value else GRACE + 1.0;
        if p.current == Some(None) {
          if age > GRACE {
            stale := sid;
            sid := None;
            assignedAt := None;
          }
        } else if p.current.Some? && p.current.value != sid {
          if age > GRACE {
            sid := p.current.value;
          }
        }
      }
    }
  }

  function Views(ws: seq<WorkerStatus>): (rs: seq<Rec>)
    reads ws
    ensures |rs| == |ws|
    ensures forall i :: 0 <= i < |ws| ==> rs[i] == ws[i].View()
  {
    if ws == [] then [] else [ws[0].View()] + Views(ws[1..])
  }

  class LocalWorkerPool {
    var workers: seq<WorkerStatus>

    ghost predicate Valid()
      reads this, workers
    {
      forall i, j :: 0 <= i < j < |workers| ==> workers[i].id != workers[j].id
    }

    ghost function View(): seq<Rec>
      reads this, workers
    {
      Views(workers)
    }

    method GetAndAssignWorker(s: CallId, now: real) returns (w: WorkerStatus?)
      requires Valid()
      modifies workers
      ensures Valid() && View() == Assigned(old(View()), s, now)
      ensures w == null <==> AssignedTo(old(View())) == None
      ensures w != null ==> w in workers && AssignedTo(old(View())) == Some(w.id) && w.sid == Some(s)
    {
      var i := 0;
      while i < |workers|
        invariant 0 <= i <= |workers| && View() == old(View()) && Valid()
        invariant forall j :: 0 <= j < i ==> !Accepting(View()[j])
      {
        if workers[i].sid == None && workers[i].failures < 3 {
          assert FirstAccepting(View()) == i;
          w := workers[i];
          assert forall j :: 0 <= j < |workers| && j != i ==> workers[j] != w;
          w.sid := Some(s);
          w.assignedAt := Some(now);
          assert View() == old(View())[i := w.View()];
          return;
        }
        i := i + 1;
      }
      return null;
    }

    method GetWorkerForCall(s: CallId) returns (w: WorkerStatus?)
      requires Valid()
      ensures w == null <==> LookedUp(View(), s) == None
      ensures w != null ==> w in workers && LookedUp(View(), s) == Some(w.id)
    {
      var i := 0;
      while i < |workers|
        invariant 0 <= i <= |workers|
        invariant forall j :: 0 <= j < i ==> View()[j].sid != Some(s)
      {
        if workers[i].sid == Some(s) {
          assert Holder(View(), s) == i;
          return workers[i];
        }
        i := i + 1;
      }
      return null;
    }

    method ReassignCallSid(o: CallId, n: CallId)
      requires Valid()
      modifies workers
      ensures Valid() && View() == Reassigned(old(View()), o, n)
    {
      var w := GetWorkerForCall(o);
      if w != null {
        ghost var k := Holder(View(), o);
        assert workers[k] == w;
        assert forall i :: 0 <= i < |workers| && i != k ==> workers[i] != w;
        w.sid := Some(n);
        assert View() == old(View())[k := w.View()];
      }
    }

    /** Result: the worker told to cancel its prewarm. */
    method ReleaseWorker(s: CallId) returns (w: WorkerStatus?)
      requires Valid()
      modifies workers
      ensures Valid() && View() == Released(old(View()), s)
      ensures (if w == null then None else Some(w.id)) == LookedUp(old(View()), s)
    {
      hide Holder, Views;
      w := GetWorkerForCall(s);
      if w != null {
        ghost var k := Holder(View(), s);
        assert workers[k] == w;
        assert forall i :: 0 <= i < |workers| && i != k ==> workers[i] != w;
        w.sid := None;
        w.assignedAt := None;
        assert View() == old(View())[k := w.View()];
      }
    }
  }
}
