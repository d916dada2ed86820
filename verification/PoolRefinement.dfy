/** The Redis-backed pool of one runner against the single-process pool.

    Redis mode keeps two indexes and a local cache; single-process mode scans a list.  With one
    runner, a synchronised cache, a fixed worker order and keys within their lifetime, every
    operation sequence gives the same answers in both modes. */
module PoolRefinement {
  import opened Options
  import opened RedisState
  import opened WorkerPool

  datatype RedisPool = RedisPool(cache: seq<Rec>, db: Db)

  /** The candidate snapshot: healthy workers that the cache shows as free. */
  function Candidates(ws: seq<Rec>): (ids: seq<WorkerId>)
    ensures |ids| > 0 <==> FirstAccepting(ws) < |ws|
    ensures |ids| > 0 ==> ids[0] == ws[FirstAccepting(ws)].id
    ensures forall w :: w in ids ==> exists i :: 0 <= i < |ws| && ws[i].id == w && Accepting(ws[i])
  {
    if ws == [] then []
    else
      var rest := Candidates(ws[1..]);
      assert forall w :: w in rest ==> exists i :: 0 <= i < |ws[1..]| && ws[1..][i].id == w && Accepting(ws[i + 1]);
      if Accepting(ws[0]) then [ws[0].id] + rest else rest
  }

  /** Position of a worker id in pool order, or the length of the pool. */
  function IndexOf(ws: seq<Rec>, w: WorkerId): (k: nat)
    ensures k <= |ws|
    ensures forall j :: 0 <= j < k ==> ws[j].id != w
    ensures k < |ws| ==> ws[k].id == w
  {
    if ws == [] || ws[0].id == w then 0 else 1 + IndexOf(ws[1..], w)
  }

  function SetCache(ws: seq<Rec>, w: WorkerId, f: Rec -> Rec): seq<Rec> {
    var k := IndexOf(ws, w);
    if k < |ws| then ws[k := f(ws[k])] else ws
  }

  // The Redis paths of the pool methods, run without interference.

  function RedisAssign(p: RedisPool, s: CallId, now: real): (RedisPool, Option<WorkerId>) {
    var cs := Candidates(p.cache);
    if cs == [] then (p, None)
    else
      var (db', r) := FindAndAssign(p.db, cs, s, now);
      if r == None then (RedisPool(p.cache, db'), None)
      else (RedisPool(SetCache(p.cache, r.value, (c: Rec) => c.(sid := Some(s), assignedAt := Some(now))), db'), r)
  }

  function RedisLookup(p: RedisPool, s: CallId): Option<WorkerId> {
    if s in p.db.calls && IndexOf(p.cache, p.db.calls[s].worker) < |p.cache| then Some(p.db.calls[s].worker) else None
  }

  function RedisReassign(p: RedisPool, o: CallId, n: CallId): RedisPool {
    if o in p.db.calls then
      var w := p.db.calls[o].worker;
      RedisPool(SetCache(p.cache, w, (c: Rec) => c.(sid := Some(n))), Rename(p.db, o, n, w))
    else p
  }

  /** The release falls back to a scan of the local cache when Redis has no mapping. */
  function RedisRelease(p: RedisPool, s: CallId): (RedisPool, Option<WorkerId>) {
    if s in p.db.calls then
      var w := p.db.calls[s].worker;
      (RedisPool(SetCache(p.cache, w, (c: Rec) => c.(sid := None, assignedAt := None)), Release(p.db, w, s)),
       if IndexOf(p.cache, w) < |p.cache| then Some(w) else None)
    else (p.(cache := Released(p.cache, s)), LookedUp(p.cache, s))
  }

  datatype PoolOp =
    | AssignOp(sid: CallId, now: real)
    | LookupOp(sid: CallId)
    | ReassignOp(prior: CallId, next: CallId)
    | ReleaseOp(sid: CallId)
    | HealthOp(worker: WorkerId, probe: Probe, now: real)

  /** The health reader with the release that it starts, run at once. */
  function RedisHealth(p: RedisPool, w: WorkerId, seen: Probe, now: real): RedisPool {
    var k := IndexOf(p.cache, w);
    if k < |p.cache| && FreesStale(p.cache[k], seen, now)
    then RedisPool(p.cache[k := AfterProbe(p.cache[k], seen, now)], Release(p.db, w, p.cache[k].sid.value))
    else p.(cache := SetCache(p.cache, w, (c: Rec) => AfterProbe(c, seen, now)))
  }

  function LocalStep(ws: seq<Rec>, op: PoolOp): (seq<Rec>, Option<WorkerId>) {
    match op
    case AssignOp(s, now) => (Assigned(ws, s, now), AssignedTo(ws))
    case LookupOp(s) => (ws, LookedUp(ws, s))
    case ReassignOp(o, n) => (Reassigned(ws, o, n), None)
    case ReleaseOp(s) => (Released(ws, s), LookedUp(ws, s))
    case HealthOp(w, seen, now) => (SetCache(ws, w, (c: Rec) => AfterProbe(c, seen, now)), None)
  }

  function RedisStep(p: RedisPool, op: PoolOp): (RedisPool, Option<WorkerId>) {
    match op
    case AssignOp(s, now) => RedisAssign(p, s, now)
    case LookupOp(s) => (p, RedisLookup(p, s))
    case ReassignOp(o, n) => (RedisReassign(p, o, n), None)
    case ReleaseOp(s) => RedisRelease(p, s)
    case HealthOp(w, seen, now) => (RedisHealth(p, w, seen, now), None)
  }

  /** An id that the operation gives to a worker is not empty, and no other worker holds it; a health reader
      gives none, since it would tell only the cache. */
  predicate FreshIds(ws: seq<Rec>, op: PoolOp) {
    match op
    case AssignOp(s, _) => FirstAccepting(ws) < |ws| ==> s != "" && Holder(ws, s) == |ws|
    case ReassignOp(o, n) => Holder(ws, o) < |ws| ==> n != "" && (n == o || Holder(ws, n) == |ws|)
    case LookupOp(_) => true
    case ReleaseOp(_) => true
    case HealthOp(w, seen, now) =>
      var k := IndexOf(ws, w); k < |ws| ==> !AdoptsReported(ws[k], seen, now)
  }

  predicate DistinctIds(ws: seq<Rec>) {
    forall i, j :: 0 <= i < j < |ws| ==> ws[i].id != ws[j].id
  }

  predicate Agrees(r: Rec, db: Db) {
    match r.sid
    case None => !Busy(db, r.id)
    case Some(s) => s != "" && Busy(db, r.id) && db.hash[r.id].sid == s && s in db.calls && db.calls[s].worker == r.id
  }

  /** The list, the cache and the two indexes describe one assignment. */
  ghost predicate Synchronised(ws: seq<Rec>, p: RedisPool) {
    && p.cache == ws
    && DistinctIds(ws)
    && (forall i :: 0 <= i < |ws| ==> Agrees(ws[i], p.db))
    && (forall s :: s in p.db.calls ==> Holder(ws, s) < |ws|)
  }

  lemma IndexIsUnique(ws: seq<Rec>, i: nat)
    requires DistinctIds(ws) && i < |ws|
    ensures IndexOf(ws, ws[i].id) == i
  {
  }

  lemma HolderMatchesIndex(ws: seq<Rec>, p: RedisPool, s: CallId)
    requires Synchronised(ws, p)
    ensures s in p.db.calls <==> Holder(ws, s) < |ws|
    ensures s in p.db.calls ==> var k := Holder(ws, s); p.db.calls[s].worker == ws[k].id && IndexOf(ws, ws[k].id) == k
  {
    var k := Holder(ws, s);
    if k < |ws| {
      assert Agrees(ws[k], p.db);
      IndexIsUnique(ws, k);
    }
  }

  lemma AssignRefines(ws: seq<Rec>, p: RedisPool, s: CallId, now: real)
    requires Synchronised(ws, p) && FreshIds(ws, AssignOp(s, now))
    ensures var (p', r) := RedisAssign(p, s, now); r == AssignedTo(ws) && Synchronised(Assigned(ws, s, now), p')
  {
    hide Holder, IndexOf, FirstAccepting, Candidates;
    var k := FirstAccepting(ws);
    if k < |ws| {
      assert Agrees(ws[k], p.db);
      assert FirstFree(p.db, Candidates(ws)) == 0;
      IndexIsUnique(ws, k);
      var (p', r) := RedisAssign(p, s, now);
      var ws' := Assigned(ws, s, now);
      HolderMatchesIndex(ws, p, s);
      forall i | 0 <= i < |ws'| ensures Agrees(ws'[i], p'.db) { assert Agrees(ws[i], p.db); }
      forall t | t in p'.db.calls ensures Holder(ws', t) < |ws'| {
        if t != s { var j := Holder(ws, t); assert ws'[j].sid == Some(t); } else { assert ws'[k].sid == Some(s); }
      }
    }
  }

  lemma StillHeld(ws: seq<Rec>, s: CallId, k: nat)
    requires k < |ws| && ws[k].sid == Some(s)
    ensures Holder(ws, s) < |ws|
  {
  }

  lemma ReassignRefines(ws: seq<Rec>, p: RedisPool, o: CallId, n: CallId)
    requires Synchronised(ws, p) && FreshIds(ws, ReassignOp(o, n))
    ensures Synchronised(Reassigned(ws, o, n), RedisReassign(p, o, n))
  {
    hide Holder, IndexOf;
    HolderMatchesIndex(ws, p, o);
    HolderMatchesIndex(ws, p, n);
    var k := Holder(ws, o);
    if k < |ws| {
      var ws', p' := Reassigned(ws, o, n), RedisReassign(p, o, n);
      assert Agrees(ws[k], p.db);
      forall i | 0 <= i < |ws'| ensures Agrees(ws'[i], p'.db) { assert Agrees(ws[i], p.db); }
      forall t | t in p'.db.calls ensures Holder(ws', t) < |ws'| {
        if t == n { StillHeld(ws', n, k); } else { StillHeld(ws', t, Holder(ws, t)); }
      }
    }
  }

  lemma ReleaseRefines(ws: seq<Rec>, p: RedisPool, s: CallId)
    requires Synchronised(ws, p)
    ensures var (p', r) := RedisRelease(p, s); r == LookedUp(ws, s) && Synchronised(Released(ws, s), p')
  {
    hide Holder, IndexOf;
    HolderMatchesIndex(ws, p, s);
    var k := Holder(ws, s);
    if k < |ws| {
      var ws', p' := Released(ws, s), RedisRelease(p, s).0;
      assert Agrees(ws[k], p.db);
      forall i | 0 <= i < |ws'| ensures Agrees(ws'[i], p'.db) { assert Agrees(ws[i], p.db); }
      forall t | t in p'.db.calls ensures Holder(ws', t) < |ws'| {
        var j := Holder(ws, t); assert ws'[j].sid == Some(t);
      }
    }
  }

  /** A worker's record changes, but not its call. */
  lemma KeptCallRefines(ws: seq<Rec>, p: RedisPool, k: nat, c: Rec)
    requires Synchronised(ws, p) && k < |ws| && c.id == ws[k].id && c.sid == ws[k].sid
    ensures Synchronised(ws[k := c], p.(cache := ws[k := c]))
  {
    hide Holder, IndexOf;
    var ws' := ws[k := c];
    forall i | 0 <= i < |ws'| ensures Agrees(ws'[i], p.db) { assert Agrees(ws[i], p.db); }
    forall t | t in p.db.calls ensures Holder(ws', t) < |ws'| { StillHeld(ws', t, Holder(ws, t)); }
  }

  /** A worker's record loses its call, and the release script runs for it. */
  lemma FreedCallRefines(ws: seq<Rec>, p: RedisPool, k: nat, c: Rec)
    requires Synchronised(ws, p) && k < |ws| && ws[k].sid.Some? && c.id == ws[k].id && c.sid == None
    ensures Synchronised(ws[k := c], RedisPool(ws[k := c], Release(p.db, ws[k].id, ws[k].sid.value)))
  {
    hide Holder, IndexOf;
    var ws', p' := ws[k := c], RedisPool(ws[k := c], Release(p.db, ws[k].id, ws[k].sid.value));
    assert Agrees(ws[k], p.db);
    forall i | 0 <= i < |ws'| ensures Agrees(ws'[i], p'.db) { assert Agrees(ws[i], p.db); }
    forall t | t in p'.db.calls ensures Holder(ws', t) < |ws'| {
      assert Holder(ws, t) != k;
      StillHeld(ws', t, Holder(ws, t));
    }
  }

  lemma HealthRefines(ws: seq<Rec>, p: RedisPool, w: WorkerId, seen: Probe, now: real)
    requires Synchronised(ws, p) && FreshIds(ws, HealthOp(w, seen, now))
    ensures Synchronised(SetCache(ws, w, (c: Rec) => AfterProbe(c, seen, now)), RedisHealth(p, w, seen, now))
  {
    hide Synchronised, IndexOf;
    CacheIsList(ws, p);
    var k := IndexOf(ws, w);
    if k < |ws| {
      var c := AfterProbe(ws[k], seen, now);
      if FreesStale(ws[k], seen, now) {
        FreedCallRefines(ws, p, k, c);
      } else {
        KeptCallRefines(ws, p, k, c);
      }
    }
  }

  lemma CacheIsList(ws: seq<Rec>, p: RedisPool)
    requires Synchronised(ws, p)
    ensures p.cache == ws
  {
  }

  /** A record that took over a reported id no longer agrees with Redis. */
  lemma AdoptedIdParts(ws: seq<Rec>, p: RedisPool, w: WorkerId, seen: Probe, now: real)
    requires Synchronised(ws, p) && !FreshIds(ws, HealthOp(w, seen, now))
    ensures !Synchronised(SetCache(ws, w, (c: Rec) => AfterProbe(c, seen, now)), RedisHealth(p, w, seen, now))
  {
    hide IndexOf;
    var k := IndexOf(ws, w);
    assert Agrees(ws[k], p.db);
    var ws' := ws[k := AfterProbe(ws[k], seen, now)];
    assert ws' == SetCache(ws, w, (c: Rec) => AfterProbe(c, seen, now));
    assert !Agrees(ws'[k], p.db) && RedisHealth(p, w, seen, now).db == p.db;
  }

  lemma StepRefines(ws: seq<Rec>, p: RedisPool, op: PoolOp)
    requires Synchronised(ws, p) && FreshIds(ws, op)
    ensures LocalStep(ws, op).1 == RedisStep(p, op).1
    ensures Synchronised(LocalStep(ws, op).0, RedisStep(p, op).0)
  {
    match op
    case AssignOp(s, now) => AssignRefines(ws, p, s, now);
    case LookupOp(s) => HolderMatchesIndex(ws, p, s);
    case ReassignOp(o, n) => ReassignRefines(ws, p, o, n);
    case ReleaseOp(s) => ReleaseRefines(ws, p, s);
    case HealthOp(w, seen, now) => HealthRefines(ws, p, w, seen, now);
  }

  // ------------------------------------------------------------------
  // Fresh ids are needed
  // ------------------------------------------------------------------

  /** A claim for an id that is empty or held already parts list, cache and indexes. */
  lemma UsedIdParts(ws: seq<Rec>, p: RedisPool, s: CallId, now: real)
    requires Synchronised(ws, p) && FirstAccepting(ws) < |ws| && !(s != "" && Holder(ws, s) == |ws|)
    ensures !Synchronised(Assigned(ws, s, now), RedisAssign(p, s, now).0)
  {
    hide IndexOf, Candidates;
    var k, ws', p' := FirstAccepting(ws), Assigned(ws, s, now), RedisAssign(p, s, now).0;
    assert Agrees(ws[k], p.db);
    assert FirstFree(p.db, Candidates(ws)) == 0;
    IndexIsUnique(ws, k);
    assert p'.db == Assign(p.db, ws[k].id, s, now);
    if s == "" {
      assert !Agrees(ws'[k], p'.db);
    } else {
      var j := Holder(ws, s);
      assert j != k && ws'[j] == ws[j] && ws[j].id != ws[k].id;
      assert !Agrees(ws'[j], p'.db);
    }
  }

  lemma UsedNameParts(ws: seq<Rec>, p: RedisPool, o: CallId, n: CallId)
    requires Synchronised(ws, p) && Holder(ws, o) < |ws| && !(n != "" && (n == o || Holder(ws, n) == |ws|))
    ensures !Synchronised(Reassigned(ws, o, n), RedisReassign(p, o, n))
  {
    hide IndexOf;
    var k, ws', p' := Holder(ws, o), Reassigned(ws, o, n), RedisReassign(p, o, n);
    HolderMatchesIndex(ws, p, o);
    assert Agrees(ws[k], p.db);
    if n == "" {
      assert !Agrees(ws'[k], p'.db);
    } else {
      var j := Holder(ws, n);
      assert j != k && ws'[j] == ws[j] && ws[j].id != ws[k].id;
      assert !Agrees(ws'[j], p'.db);
    }
  }

  /** One operation keeps list, cache and both indexes in agreement exactly when its ids are fresh. */
  lemma StepRefinesExactlyWhen(ws: seq<Rec>, p: RedisPool, op: PoolOp)
    requires Synchronised(ws, p)
    ensures Synchronised(LocalStep(ws, op).0, RedisStep(p, op).0) <==> FreshIds(ws, op)
  {
    hide Synchronised, Holder, FirstAccepting, RedisAssign, RedisReassign, Assigned, Reassigned;
    if FreshIds(ws, op) {
      StepRefines(ws, p, op);
    } else if op.AssignOp? {
      UsedIdParts(ws, p, op.sid, op.now);
    } else if op.ReassignOp? {
      UsedNameParts(ws, p, op.prior, op.next);
    } else {
      AdoptedIdParts(ws, p, op.worker, op.probe, op.now);
    }
  }

  /** The two modes agree before and after every operation. */
  ghost predicate AgreeThroughout(ws: seq<Rec>, p: RedisPool, ops: seq<PoolOp>)
    decreases |ops|
  {
    Synchronised(ws, p) &&
    (ops == [] || AgreeThroughout(LocalStep(ws, ops[0]).0, RedisStep(p, ops[0]).0, ops[1..]))
  }

  /** Over every operation sequence, the double-indexed pool and the linear scan describe the same
      assignment throughout exactly when the ids are fresh. */
  lemma {:induction false} ModesAgreeExactlyWhen(ws: seq<Rec>, p: RedisPool, ops: seq<PoolOp>)
    requires Synchronised(ws, p)
    ensures AgreeThroughout(ws, p, ops) <==> AllFresh(ws, ops)
    decreases |ops|
  {
    hide Synchronised, FreshIds, LocalStep, RedisStep;
    if ops != [] {
      StepRefinesExactlyWhen(ws, p, ops[0]);
      if FreshIds(ws, ops[0]) {
        ModesAgreeExactlyWhen(LocalStep(ws, ops[0]).0, RedisStep(p, ops[0]).0, ops[1..]);
      }
    }
  }

  predicate AllFresh(ws: seq<Rec>, ops: seq<PoolOp>)
    decreases |ops|
  {
    ops == [] || (FreshIds(ws, ops[0]) && AllFresh(LocalStep(ws, ops[0]).0, ops[1..]))
  }

  function LocalAnswers(ws: seq<Rec>, ops: seq<PoolOp>): seq<Option<WorkerId>>
    decreases |ops|
  {
    if ops == [] then [] else var (ws', r) := LocalStep(ws, ops[0]); [r] + LocalAnswers(ws', ops[1..])
  }

  function RedisAnswers(p: RedisPool, ops: seq<PoolOp>): seq<Option<WorkerId>>
    decreases |ops|
  {
    if ops == [] then [] else var (p', r) := RedisStep(p, ops[0]); [r] + RedisAnswers(p', ops[1..])
  }

  /** Refinement over whole runs: the double-indexed pool gives the answers of the linear scan. */
  lemma {:induction false} RedisPoolRefinesLocalPool(ws: seq<Rec>, p: RedisPool, ops: seq<PoolOp>)
    requires Synchronised(ws, p) && AllFresh(ws, ops)
    ensures LocalAnswers(ws, ops) == RedisAnswers(p, ops)
    decreases |ops|
  {
    if ops != [] {
      StepRefines(ws, p, ops[0]);
      RedisPoolRefinesLocalPool(LocalStep(ws, ops[0]).0, RedisStep(p, ops[0]).0, ops[1..]);
    }
  }

  // ------------------------------------------------------------------
  // Health and assignment
  // ------------------------------------------------------------------

  /** The candidates are exactly the ids of idle workers with fewer than three failures in a row. */
  lemma CandidatesMean(ws: seq<Rec>, id: WorkerId)
    ensures id in Candidates(ws) <==>
            exists k :: 0 <= k < |ws| && ws[k].id == id && ws[k].sid == None && ws[k].failures < 3
  {
    if k :| 0 <= k < |ws| && ws[k].id == id && ws[k].sid == None && ws[k].failures < 3 {
      IdleHealthyIsCandidate(ws, k);
    }
  }

  lemma {:induction false} IdleHealthyIsCandidate(ws: seq<Rec>, k: nat)
    requires k < |ws| && ws[k].sid == None && ws[k].failures < 3
    ensures ws[k].id in Candidates(ws)
  {
    if k > 0 {
      IdleHealthyIsCandidate(ws[1..], k - 1);
    }
  }

  function LocalRun(ws: seq<Rec>, ops: seq<PoolOp>): seq<Rec> {
    if ops == [] then ws else var n := |ops| - 1; LocalStep(LocalRun(ws, ops[..n]), ops[n]).0
  }

  /** The probes of worker w in a run of operations. */
  function ProbesOf(ops: seq<PoolOp>, w: WorkerId): seq<(Probe, real)> {
    if ops == [] then []
    else
      var n := |ops| - 1;
      ProbesOf(ops[..n], w) +
      if ops[n].HealthOp? && ops[n].worker == w then [(ops[n].probe, ops[n].now)] else []
  }

  /** A worker's failures follow its own probes, whatever is assigned, renamed and released meanwhile. */
  lemma {:induction false} FailuresFollowProbes(ws: seq<Rec>, ops: seq<PoolOp>, k: nat)
    requires DistinctIds(ws) && k < |ws|
    ensures var ws' := LocalRun(ws, ops);
            && |ws'| == |ws| && (forall i :: 0 <= i < |ws| ==> ws'[i].id == ws[i].id)
            && ws'[k].failures == AfterProbes(ws[k], ProbesOf(ops, ws[k].id)).failures
  {
    hide Holder, FirstAccepting, AfterProbes;
    if ops == [] {
      NoProbes(ws[k]);
    } else {
      var n := |ops| - 1;
      var before, ps := LocalRun(ws, ops[..n]), ProbesOf(ops[..n], ws[k].id);
      FailuresFollowProbes(ws, ops[..n], k);
      OneStepOfFailures(before, ops[n], k);
      if ops[n].HealthOp? && ops[n].worker == ws[k].id {
        OneMoreProbe(ws[k], ps, (ops[n].probe, ops[n].now));
      } else {
        assert ProbesOf(ops, ws[k].id) == ps;
      }
    }
  }

  lemma NoProbes(r: Rec)
    ensures AfterProbes(r, []) == r
  {
  }

  lemma OneMoreProbe(r: Rec, ps: seq<(Probe, real)>, p: (Probe, real))
    ensures AfterProbes(r, ps + [p]).failures ==
              if p.0 == Failed then AfterProbes(r, ps).failures + 1 else 0
  {
    assert (ps + [p])[..|ps|] == ps;
    ProbeMeans(AfterProbes(r, ps), p.0, p.1);
  }

  lemma OneStepOfFailures(ws: seq<Rec>, op: PoolOp, k: nat)
    requires DistinctIds(ws) && k < |ws|
    ensures var ws' := LocalStep(ws, op).0;
            && |ws'| == |ws| && (forall i :: 0 <= i < |ws| ==> ws'[i].id == ws[i].id)
            && ws'[k].failures == if !(op.HealthOp? && op.worker == ws[k].id) then ws[k].failures
                                  else if op.probe == Failed then ws[k].failures + 1 else 0
  {
    hide Holder, FirstAccepting, IndexOf;
    IndexIsUnique(ws, k);
  }

  /** Over every run of a pool whose workers start without failures: a worker is claimed only if its last
      three probes did not all fail, and an idle worker is a candidate exactly when they did not. */
  lemma ClaimsFollowProbes(ws: seq<Rec>, ops: seq<PoolOp>, k: nat, s: CallId, now: real)
    requires DistinctIds(ws) && k < |ws| && ws[k].failures == 0
    ensures var ws' := LocalRun(ws, ops); var unhealthy := LastFailed(ProbesOf(ops, ws[k].id), 3);
            && |ws'| == |ws|
            && (unhealthy ==> LocalStep(ws', AssignOp(s, now)).1 != Some(ws[k].id))
            && (ws[k].id in Candidates(ws') <==> ws'[k].sid == None && !unhealthy)
  {
    var ws' := LocalRun(ws, ops);
    FailuresFollowProbes(ws, ops, k);
    UnhealthyExactlyAfterThree(ws[k], ProbesOf(ops, ws[k].id));
    CandidatesMean(ws', ws[k].id);
    AssignMeans(ws', s, now);
    hide LocalRun, ProbesOf, LastFailed, AfterProbes, FirstAccepting, Candidates;
    assert forall i :: 0 <= i < |ws'| && ws'[i].id == ws[k].id ==> i == k;
    var j := FirstAccepting(ws');
    if j < |ws'| { assert AssignedTo(ws') == Some(ws'[j].id); }
  }

  /** The empty id is where the modes part: single-process mode takes the worker for it, while the
      claiming script still sees the worker as free and gives it out again. */
  lemma EmptyIdSeparatesTheModes(w: Rec, s: CallId)
    requires w.sid == None && w.failures < 3 && s != ""
    ensures Synchronised([w], RedisPool([w], EMPTY_DB))
    ensures !Accepting(Assigned([w], "", 0.0)[0])
    ensures FindAndAssign(RedisAssign(RedisPool([w], EMPTY_DB), "", 0.0).0.db, [w.id], s, 0.0).1 == Some(w.id)
  {
    var p := RedisPool([w], EMPTY_DB);
    assert Candidates([w]) == [w.id];
    assert FirstFree(EMPTY_DB, [w.id]) == 0;
    var db1 := RedisAssign(p, "", 0.0).0.db;
    assert !Busy(db1, w.id);
    assert FirstFree(db1, [w.id]) == 0;
  }
}
