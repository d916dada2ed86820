/** The interleaved machines against the pool operations: when the steps of one call follow one another,
    RunnerProtocol and HealthSafety compute what PoolRefinement says about that operation. */
module UndisturbedCalls {
  import opened Options
  import opened RedisState
  import opened WorkerPool
  import opened PoolRefinement
  import R = RunnerProtocol
  import H = HealthSafety

  // ------------------------------------------------------------------
  // One method call of a runner, its script repeated any number of times
  // ------------------------------------------------------------------

  predicate Runs(sys: R.Sys, run: seq<R.Step>, last: R.Sys) {
    R.Legal(sys, run) && R.Exec(sys, run) == last
  }

  lemma NoStep(sys: R.Sys)
    ensures Runs(sys, [], sys)
  {
  }

  lemma OneStep(sys: R.Sys, next: R.Sys, run: seq<R.Step>, rest: seq<R.Step>, last: R.Sys)
    requires run != [] && rest == run[1..]
    requires R.Enabled(sys, run[0]) && R.Apply(sys, run[0]) == next && Runs(next, rest, last)
    ensures Runs(sys, run, last)
  {
  }

  /** The script of a method call under way: n attempts whose reply is lost, then an answered one. */
  function Attempts(op: R.OpId, n: nat): seq<R.Step> {
    if n == 0 then [R.RunScript(op, true)] else [R.RunScript(op, false)] + Attempts(op, n - 1)
  }

  function ScriptUnderWay(p: R.Op): Script
    requires !p.Caching?
  {
    if p.Renaming? then RenameScript(p.prior, p.next, p.worker) else ReleaseScript(p.worker, p.sid)
  }

  /** What is left of the call afterwards: a rename still records itself in the cache. */
  function AfterAnswer(ops: map<R.OpId, R.Op>, op: R.OpId): map<R.OpId, R.Op>
    requires op in ops
  {
    if ops[op].Renaming? then ops[op := R.Caching(ops[op].next, ops[op].worker)] else ops - {op}
  }

  /** However often it ran, the script takes effect once and touches nothing else. */
  lemma {:induction false} AttemptsRunOnce(sys: R.Sys, op: R.OpId, n: nat, rest: seq<R.Step>, last: R.Sys)
    requires op in sys.ops && !sys.ops[op].Caching?
    requires Runs(sys.(db := Run(sys.db, ScriptUnderWay(sys.ops[op])), ops := AfterAnswer(sys.ops, op)), rest, last)
    ensures Runs(sys, Attempts(op, n) + rest, last)
    decreases n
  {
    hide Runs;
    var e := ScriptUnderWay(sys.ops[op]);
    var run := Attempts(op, n) + rest;
    if n == 0 {
      OneStep(sys, R.Apply(sys, run[0]), run, rest, last);
    } else {
      assert run[1..] == Attempts(op, n - 1) + rest;
      assert Run(Run(sys.db, e), e) == Run(sys.db, e) by {
        RetryIsIdempotent(sys.db, e, 2);
        assert Repeat(sys.db, e, 2) == Repeat(Run(sys.db, e), e, 1) == Run(Run(sys.db, e), e);
      }
      AttemptsRunOnce(R.Apply(sys, run[0]), op, n - 1, rest, last);
      OneStep(sys, R.Apply(sys, run[0]), run, Attempts(op, n - 1) + rest, last);
    }
  }

  /** A claim and its cache write: the store is that of the claiming script, and the runner's cache shows
      the id on the claimed worker.  If the worker has left the pool, its release undoes the claim. */
  lemma ClaimCall(sys: R.Sys, op: R.OpId, cs: seq<WorkerId>, s: CallId, at: real, w: WorkerId, n: nat)
    requires R.Enabled(sys, R.Claim(op, cs, s, at)) && FindAndAssign(sys.db, cs, s, at).1 == Some(w)
    ensures var db', owner' := FindAndAssign(sys.db, cs, s, at).0, sys.owner[s := w];
            && Runs(sys, [R.Claim(op, cs, s, at), R.WriteCache(op)],
                    R.Sys(db', sys.ops, sys.cache[(op.runner, w) := s], owner'))
            && Runs(sys, [R.Claim(op, cs, s, at), R.ReleaseOrphan(op)] + Attempts(op, n),
                    R.Sys(Release(db', w, s), sys.ops, sys.cache, owner'))
  {
    hide Runs, FindAndAssign, Release;
    var db', owner' := FindAndAssign(sys.db, cs, s, at).0, sys.owner[s := w];
    var claimed := R.Apply(sys, R.Claim(op, cs, s, at));
    var recorded := R.Sys(db', sys.ops, sys.cache[(op.runner, w) := s], owner');
    NoStep(recorded);
    assert claimed.ops - {op} == sys.ops;
    OneStep(claimed, recorded, [R.WriteCache(op)], [], recorded);
    OneStep(sys, claimed, [R.Claim(op, cs, s, at), R.WriteCache(op)], [R.WriteCache(op)], recorded);
    var orphan := R.Apply(claimed, R.ReleaseOrphan(op));
    var undone := R.Sys(Release(db', w, s), sys.ops, sys.cache, owner');
    assert orphan.ops - {op} == sys.ops;
    NoStep(undone);
    AttemptsRunOnce(orphan, op, n, [], undone);
    assert Attempts(op, n) + [] == Attempts(op, n);
    OneStep(claimed, orphan, [R.ReleaseOrphan(op)] + Attempts(op, n), Attempts(op, n), undone);
    OneStep(sys, claimed, [R.Claim(op, cs, s, at), R.ReleaseOrphan(op)] + Attempts(op, n),
            [R.ReleaseOrphan(op)] + Attempts(op, n), undone);
  }

  /** A rename, its script repeated n times: the store is that of one reassign, and the runner's cache shows
      the new id. */
  lemma RenameCall(sys: R.Sys, op: R.OpId, o: CallId, n: CallId, k: nat, cache: seq<Rec>)
    requires R.Enabled(sys, R.LookupRename(op, o, n)) && o in sys.db.calls
    ensures var w := sys.db.calls[o].worker;
            Runs(sys, [R.LookupRename(op, o, n)] + (Attempts(op, k) + [R.WriteCache(op)]),
                 R.Sys(RedisReassign(RedisPool(cache, sys.db), o, n).db, sys.ops,
                       sys.cache[(op.runner, w) := n], sys.owner[n := w]))
  {
    hide Runs, Rename, SetCache;
    var w := sys.db.calls[o].worker;
    var looked := R.Apply(sys, R.LookupRename(op, o, n));
    var ran := looked.(db := Rename(sys.db, o, n, w), ops := looked.ops[op := R.Caching(n, w)]);
    var last := R.Sys(Rename(sys.db, o, n, w), sys.ops, sys.cache[(op.runner, w) := n], sys.owner[n := w]);
    assert ran.ops - {op} == sys.ops;
    NoStep(last);
    OneStep(ran, last, [R.WriteCache(op)], [], last);
    AttemptsRunOnce(looked, op, k, [R.WriteCache(op)], last);
    OneStep(sys, looked, [R.LookupRename(op, o, n)] + (Attempts(op, k) + [R.WriteCache(op)]),
            Attempts(op, k) + [R.WriteCache(op)], last);
  }

  /** A release, its script repeated n times: the store is that of one release, by the looked-up worker or by
      the one that the runner's cache shows, and that entry of the cache is gone. */
  lemma ReleaseCalls(sys: R.Sys, op: R.OpId, s: CallId, w: WorkerId, n: nat, cache: seq<Rec>)
    requires op !in sys.ops
    ensures s in sys.db.calls ==>
              Runs(sys, [R.LookupRelease(op, s)] + Attempts(op, n),
                   sys.(db := RedisRelease(RedisPool(cache, sys.db), s).0.db))
    ensures s !in sys.db.calls ==> Runs(sys, [R.LookupRelease(op, s)], sys)
    ensures (op.runner, w) in sys.cache ==>
              Runs(sys, [R.ReleaseCached(op, w)] + Attempts(op, n),
                   sys.(db := Release(sys.db, w, sys.cache[(op.runner, w)]), cache := sys.cache - {(op.runner, w)}))
  {
    hide Runs, Release, SetCache;
    if s in sys.db.calls {
      ReleaseUnderWay(sys, R.LookupRelease(op, s), op, n);
    } else {
      NoStep(sys);
      OneStep(sys, sys, [R.LookupRelease(op, s)], [], sys);
    }
    if (op.runner, w) in sys.cache {
      ReleaseUnderWay(sys, R.ReleaseCached(op, w), op, n);
    }
  }

  lemma ReleaseUnderWay(sys: R.Sys, st: R.Step, op: R.OpId, n: nat)
    requires op !in sys.ops && R.Enabled(sys, st)
    requires var next := R.Apply(sys, st); op in next.ops && next.ops[op].Releasing? && next.ops - {op} == sys.ops
    ensures var next := R.Apply(sys, st);
            Runs(sys, [st] + Attempts(op, n),
                 next.(db := Release(next.db, next.ops[op].worker, next.ops[op].sid), ops := sys.ops))
  {
    hide Runs, Release;
    var next := R.Apply(sys, st);
    var last := next.(db := Release(next.db, next.ops[op].worker, next.ops[op].sid), ops := sys.ops);
    NoStep(last);
    AttemptsRunOnce(next, op, n, [], last);
    assert Attempts(op, n) + [] == Attempts(op, n);
    OneStep(sys, next, [st] + Attempts(op, n), Attempts(op, n), last);
  }

  /** What a probe learned is what a release by the cache then uses; what a crash loses is the rest of its
      calls and of its cache, never anything in Redis. */
  lemma ReportsAndCrashes(sys: R.Sys, op: R.OpId, w: WorkerId, s: CallId, n: nat, ops: set<R.OpId>,
    gone: set<(nat, WorkerId)>)
    requires op !in sys.ops && R.OwnedBy(sys.owner, s, w)
    ensures Runs(sys, [R.WorkerReports(op.runner, w, s), R.ReleaseCached(op, w)] + Attempts(op, n),
                 sys.(db := Release(sys.db, w, s), cache := sys.cache - {(op.runner, w)}))
    ensures Runs(sys, [R.Crash(ops, gone)], sys.(ops := sys.ops - ops, cache := sys.cache - gone))
  {
    hide Runs, Release;
    var told := sys.(cache := sys.cache[(op.runner, w) := s]);
    ReleaseCalls(told, op, s, w, n, []);
    assert told.cache - {(op.runner, w)} == sys.cache - {(op.runner, w)};
    OneStep(sys, told, [R.WorkerReports(op.runner, w, s), R.ReleaseCached(op, w)] + Attempts(op, n),
            [R.ReleaseCached(op, w)] + Attempts(op, n),
            sys.(db := Release(sys.db, w, s), cache := sys.cache - {(op.runner, w)}));
    var crashed := sys.(ops := sys.ops - ops, cache := sys.cache - gone);
    NoStep(crashed);
    OneStep(sys, crashed, [R.Crash(ops, gone)], [], crashed);
  }

  // ------------------------------------------------------------------
  // One runner and its worker under the health reader
  // ------------------------------------------------------------------

  /** The pool of a runner that knows one worker. */
  function PoolOf(f: H.Fleet, r: nat): RedisPool
    requires r in f.recs
  {
    RedisPool([f.recs[r]], f.db)
  }

  /** The events are possible; they leave the runner's pool as `p` and all other records alone. */
  predicate Leaves(f: H.Fleet, es: seq<H.Event>, b: H.Bounds, r: nat, p: RedisPool) {
    && H.Feasible(f, es, b)
    && var g := H.After(f, es, b);
       r in g.recs && PoolOf(g, r) == p && g.recs - {r} == f.recs - {r}
  }

  lemma OneEvent(f: H.Fleet, g: H.Fleet, es: seq<H.Event>, rest: seq<H.Event>, b: H.Bounds, r: nat, p: RedisPool)
    requires es != [] && rest == es[1..]
    requires H.Possible(f, es[0], b) && H.Happen(f, es[0], b) == g && Leaves(g, rest, b, r, p)
    requires f.recs - {r} == g.recs - {r}
    ensures Leaves(f, es, b, r, p)
  {
  }

  lemma NoEvent(f: H.Fleet, b: H.Bounds, r: nat)
    requires r in f.recs
    ensures Leaves(f, [], b, r, PoolOf(f, r))
  {
  }

  /** The script and the record of each call together are the pool's operation. */
  lemma RecordedCalls(f: H.Fleet, b: H.Bounds, r: nat, s: CallId, n: CallId)
    requires r in f.recs && f.recs[r].id == f.worker && s != ""
    ensures Accepting(f.recs[r]) && !Busy(f.db, f.worker) ==>
              Leaves(f, [H.ClaimFor(s), H.CacheClaim(r, s)], b, r, RedisAssign(PoolOf(f, r), s, f.clock).0)
    ensures f.recs[r].sid.Some? && n != "" && s in f.db.calls && f.db.calls[s].worker == f.worker ==>
              Leaves(f, [H.RenameHash(s, n), H.CacheRename(r, n)], b, r, RedisReassign(PoolOf(f, r), s, n))
    ensures s in f.db.calls && f.db.calls[s].worker == f.worker ==>
              Leaves(f, [H.EndBy(s), H.CacheRelease(r)], b, r, RedisRelease(PoolOf(f, r), s).0)
  {
    hide Leaves, Assign, Rename, Release, FindAndAssign;
    if Accepting(f.recs[r]) && !Busy(f.db, f.worker) {
      ClaimsItsWorker(f, r, s);
      TwoEvents(f, H.ClaimFor(s), H.CacheClaim(r, s), b, r, RedisAssign(PoolOf(f, r), s, f.clock).0);
    }
    if f.recs[r].sid.Some? && n != "" && s in f.db.calls && f.db.calls[s].worker == f.worker {
      RecordOf(f, r, f.recs[r].(sid := Some(n)), (c: Rec) => c.(sid := Some(n)));
      TwoEvents(f, H.RenameHash(s, n), H.CacheRename(r, n), b, r, RedisReassign(PoolOf(f, r), s, n));
    }
    if s in f.db.calls && f.db.calls[s].worker == f.worker {
      RecordOf(f, r, f.recs[r].(sid := None, assignedAt := None), (c: Rec) => c.(sid := None, assignedAt := None));
      TwoEvents(f, H.EndBy(s), H.CacheRelease(r), b, r, RedisRelease(PoolOf(f, r), s).0);
    }
  }

  lemma RecordOf(f: H.Fleet, r: nat, c: Rec, g: Rec -> Rec)
    requires r in f.recs && f.recs[r].id == f.worker && g(f.recs[r]) == c
    ensures SetCache([f.recs[r]], f.worker, g) == [c]
  {
  }

  lemma ClaimsItsWorker(f: H.Fleet, r: nat, s: CallId)
    requires r in f.recs && f.recs[r].id == f.worker && Accepting(f.recs[r]) && !Busy(f.db, f.worker)
    ensures RedisAssign(PoolOf(f, r), s, f.clock).0 ==
            RedisPool([f.recs[r].(sid := Some(s), assignedAt := Some(f.clock))], Assign(f.db, f.worker, s, f.clock))
  {
    hide Assign;
    assert Candidates([f.recs[r]]) == [f.worker];
    assert FirstFree(f.db, [f.worker]) == 0;
  }

  lemma TwoEvents(f: H.Fleet, e1: H.Event, e2: H.Event, b: H.Bounds, r: nat, p: RedisPool)
    requires H.Possible(f, e1, b) && H.Possible(H.Happen(f, e1, b), e2, b)
    requires var g := H.Happen(H.Happen(f, e1, b), e2, b);
             r in g.recs && g.recs - {r} == f.recs - {r} && PoolOf(g, r) == p
    requires H.Happen(f, e1, b).recs == f.recs
    ensures Leaves(f, [e1, e2], b, r, p)
  {
    hide Leaves, H.Possible, H.Happen;
    var g := H.Happen(f, e1, b);
    var h := H.Happen(g, e2, b);
    NoEvent(h, b, r);
    OneEvent(g, h, [e2], [], b, r, p);
    OneEvent(f, g, [e1, e2], [e2], b, r, p);
  }

  /** A release task: n runs whose reply is lost, then an answered one. */
  function Releases(p: nat, n: nat): seq<H.Event> {
    if n == 0 then [H.RunRelease(p, true)] else [H.RunRelease(p, false)] + Releases(p, n - 1)
  }

  /** The release task that a probe of f's worker starts. */
  function ReleaseOf(f: H.Fleet, r: nat, p: nat, seen: Probe, n: nat): seq<H.Event>
    requires r in f.recs
  {
    if FreesStale(f.recs[r], seen, f.clock) then Releases(p, n) else []
  }

  lemma {:induction false} ReleasesRunOnce(f: H.Fleet, b: H.Bounds, r: nat, p: nat, n: nat)
    requires r in f.recs && p in f.releases
    ensures Leaves(f, Releases(p, n), b, r, RedisPool([f.recs[r]], Release(f.db, f.worker, f.releases[p])))
    decreases n
  {
    hide Leaves;
    var es := Releases(p, n);
    var g := H.Happen(f, es[0], b);
    if n == 0 {
      NoEvent(g, b, r);
      OneEvent(f, g, es, [], b, r, PoolOf(g, r));
    } else {
      assert Release(g.db, f.worker, f.releases[p]) == g.db;
      ReleasesRunOnce(g, b, r, p, n - 1);
      OneEvent(f, g, es, Releases(p, n - 1), b, r, PoolOf(g, r));
    }
  }

  /** A lost probe is not applied, a lost release does not run; an unanswered one may run once more, an
      answered one does not. */
  lemma FateOfTrips(f: H.Fleet, b: H.Bounds, p: nat, again: bool)
    ensures p in f.probes ==> !H.Possible(H.Happen(f, H.LoseProbe(p), b), H.ApplyProbe(p), b)
    ensures p in f.releases ==> !H.Possible(H.Happen(f, H.LoseRelease(p), b), H.RunRelease(p, again), b)
    ensures p in f.releases ==> H.Possible(H.Happen(f, H.RunRelease(p, false), b), H.RunRelease(p, again), b)
    ensures p in f.releases ==> !H.Possible(H.Happen(f, H.RunRelease(p, true), b), H.RunRelease(p, again), b)
  {
  }

  lemma AnswerApplied(f: H.Fleet, b: H.Bounds, r: nat, p: nat, n: nat)
    requires r in f.recs && f.recs[r].id == f.worker && p in f.probes && p !in f.releases
    requires H.Possible(f, H.ApplyProbe(p), b) && f.probes[p].runner == r
    ensures var seen := H.Seen(f.probes[p]);
            Leaves(f, [H.ApplyProbe(p)] + ReleaseOf(f, r, p, seen, n), b, r,
                   RedisHealth(PoolOf(f, r), f.worker, seen, f.clock))
  {
    hide Leaves, Release, AfterProbe, FreesStale;
    var seen := H.Seen(f.probes[p]);
    var rest, pool := ReleaseOf(f, r, p, seen, n), RedisHealth(PoolOf(f, r), f.worker, seen, f.clock);
    var g := H.Happen(f, H.ApplyProbe(p), b);
    RecordOf(f, r, AfterProbe(f.recs[r], seen, f.clock), (c: Rec) => AfterProbe(c, seen, f.clock));
    if rest != [] {
      StaleHasCall(f.recs[r], seen, f.clock);
      ReleasesRunOnce(g, b, r, p, n);
    } else {
      NoEvent(g, b, r);
    }
    OneEvent(f, g, [H.ApplyProbe(p)] + rest, rest, b, r, pool);
  }

  lemma StaleHasCall(c: Rec, seen: Probe, now: real)
    requires FreesStale(c, seen, now)
    ensures c.sid.Some?
  {
  }

  /** A probe sent, answered and applied at once, and the release that it starts, run any number of times, are
      the pool's health decision about what the worker reports. */
  lemma ProbeCall(f: H.Fleet, b: H.Bounds, r: nat, p: nat, n: nat)
    requires r in f.recs && f.recs[r].id == f.worker && p !in f.probes && p !in f.releases && b.trip >= 0.0
    ensures var seen := Answered(Some(f.app.current));
            Leaves(f, [H.SendProbe(r, p), H.ReadProbe(p), H.ApplyProbe(p)] + ReleaseOf(f, r, p, seen, n),
                   b, r, RedisHealth(PoolOf(f, r), f.worker, seen, f.clock))
  {
    hide Leaves, RedisHealth, FreesStale;
    var seen := Answered(Some(f.app.current));
    var rest, pool := ReleaseOf(f, r, p, seen, n), RedisHealth(PoolOf(f, r), f.worker, seen, f.clock);
    var sent := H.Happen(f, H.SendProbe(r, p), b);
    var read := H.Happen(sent, H.ReadProbe(p), b);
    AnswerApplied(read, b, r, p, n);
    OneEvent(sent, read, [H.ReadProbe(p), H.ApplyProbe(p)] + rest, [H.ApplyProbe(p)] + rest, b, r, pool);
    OneEvent(f, sent, [H.SendProbe(r, p), H.ReadProbe(p), H.ApplyProbe(p)] + rest,
             [H.ReadProbe(p), H.ApplyProbe(p)] + rest, b, r, pool);
  }
}
