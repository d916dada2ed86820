/** The Redis paths of the pool methods (app/services/worker_pool/base.py), run by one runner without
    interference but with failing Redis requests, against the functions of PoolRefinement. */
module RedisMode {
  import opened Options
  import opened RedisState
  import opened WorkerPool
  import opened PoolRefinement

  /** _RELEASE_LOOKUP_RETRIES */
  const RELEASE_LOOKUP_RETRIES := 4

  /** A release whose lookups may fail, and whose script runs as often as its retries reach Redis. */
  function ReleaseUnder(p: RedisPool, s: CallId, lookupFails: seq<bool>, attempts: seq<Attempt>): RedisPool {
    if false in lookupFails && s in p.db.calls then
      var w := p.db.calls[s].worker;
      RedisPool(SetCache(p.cache, w, (c: Rec) => c.(sid := None, assignedAt := None)),
                Repeat(p.db, ReleaseScript(w, s), Executions(attempts)))
    else p.(cache := Released(p.cache, s))
  }

  lemma {:induction false} ReachedOnce(attempts: seq<Attempt>)
    ensures (exists a :: a in attempts && a != NotRun) <==> Executions(attempts) > 0
  {
    if attempts != [] {
      ReachedOnce(attempts[1..]);
      if attempts[0] != NotRun {
        assert attempts[0] in attempts;
      } else {
        assert forall a :: a in attempts && a != NotRun ==> a in attempts[1..];
        assert forall a :: a in attempts[1..] ==> a in attempts;
      }
    }
  }

  /** Faults that do not matter: with one lookup answered and one attempt that reached Redis, a release
      is the release without faults. */
  lemma ReleaseSurvivesFaults(p: RedisPool, s: CallId, lookupFails: seq<bool>, attempts: seq<Attempt>)
    requires false in lookupFails && exists a :: a in attempts && a != NotRun
    ensures ReleaseUnder(p, s, lookupFails, attempts) == RedisRelease(p, s).0
  {
    ReachedOnce(attempts);
    if s in p.db.calls {
      RetryIsIdempotent(p.db, ReleaseScript(p.db.calls[s].worker, s), Executions(attempts));
    }
  }

  /** Faults that do: when no attempt reached Redis, or no lookup was answered, the runner shows the worker
      as free and Redis keeps it busy: the two parted exactly when the worker was held in Redis. */
  lemma LostReleaseSplitsViews(ws: seq<Rec>, p: RedisPool, s: CallId, lookupFails: seq<bool>, attempts: seq<Attempt>)
    requires Synchronised(ws, p) && (false !in lookupFails || forall a :: a in attempts ==> a == NotRun)
    ensures var p' := ReleaseUnder(p, s, lookupFails, attempts);
            && p'.db == p.db
            && p'.cache == Released(ws, s)
            && (Synchronised(p'.cache, p') <==> s !in p.db.calls)
  {
    hide Holder, IndexOf;
    ReachedOnce(attempts);
    HolderMatchesIndex(ws, p, s);
    var k := Holder(ws, s);
    if s in p.db.calls {
      assert Agrees(ws[k], p.db);
      assert !Agrees(Released(ws, s)[k], p.db);
    }
  }

  /** A reassign: a failed lookup is taken for no assignment; a script that never ran still renames the
      call in the local cache. */
  function ReassignUnder(p: RedisPool, o: CallId, n: CallId, lookupFails: bool, attempts: seq<Attempt>): RedisPool {
    if !lookupFails && o in p.db.calls then
      var w := p.db.calls[o].worker;
      RedisPool(SetCache(p.cache, w, (c: Rec) => c.(sid := Some(n))),
                Repeat(p.db, RenameScript(o, n, w), Executions(attempts)))
    else p
  }

  lemma ReassignSurvivesFaults(p: RedisPool, o: CallId, n: CallId, attempts: seq<Attempt>)
    requires exists a :: a in attempts && a != NotRun
    ensures ReassignUnder(p, o, n, false, attempts) == RedisReassign(p, o, n)
  {
    ReachedOnce(attempts);
    if o in p.db.calls {
      RetryIsIdempotent(p.db, RenameScript(o, n, p.db.calls[o].worker), Executions(attempts));
    }
  }

  /** When no attempt of the script reached Redis, Redis keeps the old id, and the cache shows the new one
      unless the lookup failed: they part exactly when it was answered, the ids differ and Redis knew the
      call.  After a failed lookup the reassign is lost in both. */
  lemma LostReassignSplitsViews(
    ws: seq<Rec>, p: RedisPool, o: CallId, n: CallId, lookupFails: bool, attempts: seq<Attempt>)
    requires Synchronised(ws, p) && n != "" && (lookupFails || forall a :: a in attempts ==> a == NotRun)
    ensures var p' := ReassignUnder(p, o, n, lookupFails, attempts);
            && p'.db == p.db
            && p'.cache == (if lookupFails then ws else Reassigned(ws, o, n))
            && (Synchronised(p'.cache, p') <==> lookupFails || o !in p.db.calls || o == n)
  {
    hide Holder, IndexOf;
    ReachedOnce(attempts);
    HolderMatchesIndex(ws, p, o);
    var k := Holder(ws, o);
    if !lookupFails && o in p.db.calls {
      assert Agrees(ws[k], p.db);
      if o == n {
        assert Reassigned(ws, o, n) == ws;
      } else {
        assert !Agrees(Reassigned(ws, o, n)[k], p.db);
      }
    }
  }

  lemma {:induction false} CandidatesAppend(ws: seq<Rec>, r: Rec)
    ensures Candidates(ws + [r]) == Candidates(ws) + if Accepting(r) then [r.id] else []
  {
    if ws != [] {
      CandidatesAppend(ws[1..], r);
      assert (ws + [r])[1..] == ws[1..] + [r];
    }
  }

  lemma OneMoreCandidate(ws: seq<Rec>, i: nat)
    requires i < |ws|
    ensures Candidates(ws[..i + 1]) == Candidates(ws[..i]) + if Accepting(ws[i]) then [ws[i].id] else []
  {
    hide Candidates;
    CandidatesAppend(ws[..i], ws[i]);
    assert ws[..i + 1] == ws[..i] + [ws[i]];
  }

  lemma NoCandidates(ws: seq<Rec>)
    ensures Candidates(ws[..0]) == []
  {
  }

  /** What the script claims is a worker of the pool that took the snapshot. */
  lemma ClaimedIsPooled(ws: seq<Rec>, db: Db, s: CallId, now: real)
    ensures var r := FindAndAssign(db, Candidates(ws), s, now).1; r.Some? ==> IndexOf(ws, r.value) < |ws|
  {
    hide IndexOf, Candidates;
    var r := FindAndAssign(db, Candidates(ws), s, now).1;
    if r.Some? {
      assert r.value in Candidates(ws);
    }
  }

  class RedisWorkerPool {
    var workers: seq<WorkerStatus>
    const redis: RedisStateBackend

    ghost predicate Valid()
      reads this, workers
    {
      forall i, j :: 0 <= i < j < |workers| ==> workers[i].id != workers[j].id
    }

    ghost function Cache(): seq<Rec>
      reads this, workers
    {
      Views(workers)
    }

    ghost function View(): RedisPool
      reads this, workers, redis
    {
      RedisPool(Cache(), redis.View())
    }

    constructor (redis: RedisStateBackend)
      ensures Valid() && workers == [] && this.redis == redis
    {
      workers := [];
      this.redis := redis;
    }

    /** workers.get(id) */
    method Get(id: WorkerId) returns (w: WorkerStatus?)
      ensures w == null <==> IndexOf(Cache(), id) == |workers|
      ensures w != null ==> w in workers && w.id == id && workers[IndexOf(Cache(), id)] == w
    {
      var i := 0;
      while i < |workers|
        invariant 0 <= i <= |workers|
        invariant forall j :: 0 <= j < i ==> Cache()[j].id != id
      {
        if workers[i].id == id {
          assert IndexOf(Cache(), id) == i;
          return workers[i];
        }
        i := i + 1;
      }
      return null;
    }

    method Snapshot() returns (ids: seq<WorkerId>)
      ensures ids == Candidates(Cache())
    {
      hide Candidates, Views;
      ghost var cache := Cache();
      ids := [];
      NoCandidates(cache);
      var i := 0;
      while i < |workers|
        invariant 0 <= i <= |workers| == |cache| && cache == Cache()
        invariant ids == Candidates(cache[..i])
      {
        assert cache[i] == workers[i].View();
        OneMoreCandidate(cache, i);
        if workers[i].sid == None && workers[i].failures < 3 {
          ids := ids + [workers[i].id];
        }
        i := i + 1;
      }
      assert cache[..i] == cache;
    }

    /** The locked region that writes one worker's fields (`at` None leaves the assignment time);
        a worker that the pool lacks is left out. */
    method SetWorker(id: WorkerId, sid: Option<CallId>, at: Option<Option<real>>, ghost f: Rec -> Rec)
      returns (w: WorkerStatus?)
      requires Valid()
      requires forall r: Rec :: f(r) == if at.Some? then r.(sid := sid, assignedAt := at.value) else r.(sid := sid)
      modifies workers
      ensures Valid() && Cache() == SetCache(old(Cache()), id, f)
      ensures w == null <==> IndexOf(old(Cache()), id) == |workers|
      ensures w != null ==> w in workers && w.id == id
    {
      hide IndexOf, Views;
      w := Get(id);
      if w != null {
        ghost var k := IndexOf(Cache(), id);
        assert forall i :: 0 <= i < |workers| && i != k ==> workers[i] != w;
        w.sid := sid;
        if at.Some? {
          w.assignedAt := at.value;
        }
        assert Cache() == old(Cache())[k := w.View()];
      }
    }

    method GetAndAssignWorker(s: CallId, now: real) returns (w: WorkerStatus?)
      requires Valid()
      modifies workers, redis
      ensures Valid() && View() == RedisAssign(old(View()), s, now).0
      ensures (if w == null then None else Some(w.id)) == RedisAssign(old(View()), s, now).1
    {
      hide SetCache, FindAndAssign, IndexOf, Candidates, Views, RedisStateBackend.View;
      ghost var db, cache := redis.View(), Cache();
      var candidates := Snapshot();
      if candidates == [] {
        return null;
      }
      var claimed := redis.FindAndAssignScript(candidates, s, now);
      if claimed == None {
        return null;
      }
      ClaimedIsPooled(cache, db, s, now);
      var orphaned;
      w, orphaned := RecordClaim(claimed.value, s, now);
    }

    /** The locked region after a claim.  Other operations may have come before it: a worker that left the
        pool is not recorded, and its claim is an orphan to be released. */
    method RecordClaim(id: WorkerId, s: CallId, now: real) returns (w: WorkerStatus?, orphaned: bool)
      requires Valid()
      modifies workers
      ensures Valid()
      ensures Cache() == SetCache(old(Cache()), id, (c: Rec) => c.(sid := Some(s), assignedAt := Some(now)))
      ensures orphaned <==> IndexOf(old(Cache()), id) == |workers|
      ensures if orphaned then w == null && Cache() == old(Cache()) else w != null && w in workers && w.id == id
    {
      w := SetWorker(id, Some(s), Some(Some(now)), (c: Rec) => c.(sid := Some(s), assignedAt := Some(now)));
      orphaned := w == null;
    }

    /** `discover` says that Redis names a worker the pool lacks, which forces a discovery. */
    method GetWorkerForCall(s: CallId, lookupFails: bool) returns (w: WorkerStatus?, discover: bool)
      requires Valid()
      ensures (if w == null then None else Some(w.id)) == if lookupFails then None else RedisLookup(View(), s)
      ensures w != null ==> w in workers
      ensures discover <==> !lookupFails && s in View().db.calls && RedisLookup(View(), s) == None
    {
      w, discover := null, false;
      if lookupFails {
        return;
      }
      var id := redis.GetWorkerForCall(s);
      if id.Some? {
        w := Get(id.value);
        discover := w == null;
      }
    }

    method ReassignCallSid(o: CallId, n: CallId, lookupFails: bool, attempts: seq<Attempt>)
      requires Valid()
      modifies workers, redis
      ensures Valid() && View() == ReassignUnder(old(View()), o, n, lookupFails, attempts)
    {
      hide SetCache, IndexOf, Views, Repeat, Executions;
      var id: Option<WorkerId> := None;
      if !lookupFails {
        id := redis.GetWorkerForCall(o);
      }
      if id.Some? {
        var raised := redis.WithRetry(RenameScript(o, n, id.value), attempts);
        var w := SetWorker(id.value, Some(n), None, (c: Rec) => c.(sid := Some(n)));
      }
    }

    /** The retried lookup: it finds the worker unless every request fails. */
    method LookupForRelease(s: CallId, lookupFails: seq<bool>) returns (id: Option<WorkerId>)
      requires |lookupFails| == RELEASE_LOOKUP_RETRIES
      ensures id == if false in lookupFails && s in redis.calls then Some(redis.calls[s].worker) else None
    {
      id := None;
      var attempt := 0;
      while attempt < RELEASE_LOOKUP_RETRIES
        invariant 0 <= attempt <= RELEASE_LOOKUP_RETRIES
        invariant id == None && (s in redis.calls ==> false !in lookupFails[..attempt])
      {
        if !lookupFails[attempt] {
          id := redis.GetWorkerForCall(s);
        }
        if id.Some? {
          assert lookupFails[attempt] == false;
          return;
        }
        attempt := attempt + 1;
      }
      assert lookupFails[..attempt] == lookupFails;
    }

    /** The lookup, the release script under its retries, or the fallback scan.
        Result: the worker told to cancel its prewarm. */
    method ReleaseWorker(s: CallId, lookupFails: seq<bool>, attempts: seq<Attempt>) returns (w: WorkerStatus?)
      requires Valid() && |lookupFails| == RELEASE_LOOKUP_RETRIES
      modifies workers, redis
      ensures Valid() && View() == ReleaseUnder(old(View()), s, lookupFails, attempts)
      ensures false in lookupFails ==> (if w == null then None else Some(w.id)) == RedisRelease(old(View()), s).1
    {
      hide SetCache, IndexOf, Repeat, Executions, Holder, Released, LookedUp, Views;
      var id := LookupForRelease(s, lookupFails);
      if id.Some? {
        var raised := redis.WithRetry(ReleaseScript(id.value, s), attempts);
        w := SetWorker(id.value, None, Some(None), (c: Rec) => c.(sid := None, assignedAt := None));
      } else {
        w := ReleaseScan(s);
      }
    }

    /** The fallback: the first worker that the local cache shows on the call. */
    method ReleaseScan(s: CallId) returns (w: WorkerStatus?)
      requires Valid()
      modifies workers
      ensures Valid() && Cache() == Released(old(Cache()), s)
      ensures (if w == null then None else Some(w.id)) == LookedUp(old(Cache()), s)
    {
      var i := 0;
      while i < |workers|
        invariant 0 <= i <= |workers| && Cache() == old(Cache()) && Valid()
        invariant forall j :: 0 <= j < i ==> Cache()[j].sid != Some(s)
      {
        if workers[i].sid == Some(s) {
          assert Holder(Cache(), s) == i;
          w := workers[i];
          assert forall j :: 0 <= j < |workers| && j != i ==> workers[j] != w;
          w.sid := None;
          w.assignedAt := None;
          assert Cache() == old(Cache())[i := w.View()];
          return;
        }
        i := i + 1;
      }
      return null;
    }
  }
}
