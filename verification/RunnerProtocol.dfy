/** Any number of runners over one Redis: the multi-step pool methods of
    app/services/worker_pool/base.py as a step relation.

    A pool method looks a worker up, awaits, then runs a script; other runners act in between.
    `Op` is the program counter of one method call that is under way.  A runner may crash, or a
    method may give up, at any counter; a script whose reply was lost runs again.

    `owner` is a history variable: the worker an id was first given to. */
module RunnerProtocol {
  import opened Options
  import opened RedisState

  datatype OpId = OpId(runner: nat, n: nat)

  datatype Op =
    | Releasing(sid: CallId, worker: WorkerId)                    // looked up, release script to come
    | Renaming(prior: CallId, next: CallId, worker: WorkerId)     // looked up, reassign script to come
    | Caching(sid: CallId, worker: WorkerId)                      // script done, local cache write to come

  datatype Sys = Sys(
    db: Db,
    ops: map<OpId, Op>,
    cache: map<(nat, WorkerId), CallId>,    // WorkerStatus.current_call_sid, per runner
    owner: Owner)

  const INITIAL := Sys(EMPTY_DB, map[], map[], map[])

  datatype Step =
    | Claim(op: OpId, candidates: seq<WorkerId>, sid: CallId, at: real)
    | LookupRelease(op: OpId, sid: CallId)
    | LookupRename(op: OpId, prior: CallId, next: CallId)
    | RunScript(op: OpId, answered: bool)               // not answered: it will run once more
    | WriteCache(op: OpId)
    | ReleaseOrphan(op: OpId)                           // claimed, but gone from the local pool
    | ReleaseCached(op: OpId, worker: WorkerId)         // health reader or admin, by the local cache
    | AdminClear(worker: WorkerId)
    | WorkerReports(runner: nat, worker: WorkerId, sid: CallId)
    | Crash(ops: set<OpId>, forgotten: set<(nat, WorkerId)>)
    | Pass(d: nat)

  type Owner = map<CallId, WorkerId>

  predicate OwnedBy(owner: Owner, s: CallId, w: WorkerId) {
    s in owner && owner[s] == w
  }

  predicate NotOwnedElsewhere(owner: Owner, s: CallId, w: WorkerId) {
    s in owner ==> owner[s] == w
  }

  /** What may happen.  The only discipline on ids is that none is ever given to two workers;
      the only one on workers is that they report ids they were given. */
  predicate Enabled(sys: Sys, st: Step) {
    match st
    case Claim(op, cs, s, at) =>
      op !in sys.ops &&
      var r := FindAndAssign(sys.db, cs, s, at).1; r.Some? ==> NotOwnedElsewhere(sys.owner, s, r.value)
    case LookupRelease(op, _) => op !in sys.ops
    case LookupRename(op, o, n) =>
      op !in sys.ops && (o in sys.db.calls ==> NotOwnedElsewhere(sys.owner, n, sys.db.calls[o].worker))
    case RunScript(op, _) => op in sys.ops && !sys.ops[op].Caching?
    case WriteCache(op) => op in sys.ops && sys.ops[op].Caching?
    case ReleaseOrphan(op) => op in sys.ops && sys.ops[op].Caching?
    case ReleaseCached(op, w) => op !in sys.ops && (op.runner, w) in sys.cache
    case WorkerReports(_, w, s) => OwnedBy(sys.owner, s, w)
    case AdminClear(_) => true
    case Crash(_, _) => true
    case Pass(_) => true
  }

  function Apply(sys: Sys, st: Step): Sys
    requires Enabled(sys, st)
  {
    match st
    case Claim(op, cs, s, at) =>
      var (db', r) := FindAndAssign(sys.db, cs, s, at);
      if r == None then sys
      else sys.(db := db', ops := sys.ops[op := Caching(s, r.value)], owner := sys.owner[s := r.value])
    case LookupRelease(op, s) =>
      if s in sys.db.calls then sys.(ops := sys.ops[op := Releasing(s, sys.db.calls[s].worker)]) else sys
    case LookupRename(op, o, n) =>
      if o in sys.db.calls then
        var w := sys.db.calls[o].worker;
        sys.(ops := sys.ops[op := Renaming(o, n, w)], owner := sys.owner[n := w])
      else sys
    case RunScript(op, answered) =>
      (match sys.ops[op]
       case Releasing(s, w) =>
         sys.(db := Release(sys.db, w, s), ops := if answered then sys.ops - {op} else sys.ops)
       case Renaming(o, n, w) =>
         sys.(db := Rename(sys.db, o, n, w), ops := if answered then sys.ops[op := Caching(n, w)] else sys.ops)
       case Caching(_, _) => sys)
    case WriteCache(op) =>
      sys.(cache := sys.cache[(op.runner, sys.ops[op].worker) := sys.ops[op].sid], ops := sys.ops - {op})
    case ReleaseOrphan(op) =>
      sys.(ops := sys.ops[op := Releasing(sys.ops[op].sid, sys.ops[op].worker)])
    case ReleaseCached(op, w) =>
      sys.(ops := sys.ops[op := Releasing(sys.cache[(op.runner, w)], w)], cache := sys.cache - {(op.runner, w)})
    case AdminClear(w) => sys.(db := Clear(sys.db, w))
    case WorkerReports(r, w, s) => sys.(cache := sys.cache[(r, w) := s])
    case Crash(ops, gone) => sys.(ops := sys.ops - ops, cache := sys.cache - gone)
    case Pass(d) => sys.(db := Elapse(sys.db, d))
  }

  predicate Legal(sys: Sys, run: seq<Step>)
    decreases |run|
  {
    run == [] || (Enabled(sys, run[0]) && Legal(Apply(sys, run[0]), run[1..]))
  }

  function Exec(sys: Sys, run: seq<Step>): Sys
    requires Legal(sys, run)
    decreases |run|
  {
    if run == [] then sys else Exec(Apply(sys, run[0]), run[1..])
  }

  // ------------------------------------------------------------------
  // Recoverability: no serialisation needed
  // ------------------------------------------------------------------

  /** The id shown on a busy worker leads back to that worker. */
  ghost predicate Recoverable(db: Db) {
    forall w :: Busy(db, w) ==> db.hash[w].sid in db.calls && db.calls[db.hash[w].sid].worker == w
  }

  predicate OpOwned(owner: Owner, p: Op) {
    match p
    case Releasing(s, w) => OwnedBy(owner, s, w)
    case Renaming(o, n, w) => OwnedBy(owner, o, w) && OwnedBy(owner, n, w)
    case Caching(s, w) => OwnedBy(owner, s, w)
  }

  /** Every pair of id and worker in Redis is the owning pair of that id. */
  ghost predicate DbOwned(db: Db, owner: Owner) {
    && (forall w :: Busy(db, w) ==> OwnedBy(owner, db.hash[w].sid, w))
    && (forall s :: s in db.calls ==> OwnedBy(owner, s, db.calls[s].worker))
  }

  /** The same for the pairs that method calls and local caches remember. */
  predicate RunnersOwned(sys: Sys) {
    && (forall op :: op in sys.ops ==> OpOwned(sys.owner, sys.ops[op]))
    && (forall k :: k in sys.cache ==> OwnedBy(sys.owner, sys.cache[k], k.1))
  }

  /** A HASH with a TTL does not outlive the reverse key of its id. */
  ghost predicate Covered(db: Db) {
    forall w :: w in db.hash && db.hash[w].expiry.Some? ==>
      var e := db.hash[w].expiry.value; var s := db.hash[w].sid;
      e <= db.clock + KEY_TTL && (s != "" && s in db.calls ==> e <= db.calls[s].expiry)
  }

  ghost predicate DbSound(db: Db, owner: Owner) {
    DbOwned(db, owner) && Covered(db) && Recoverable(db)
  }

  ghost predicate Sound(sys: Sys) {
    DbSound(sys.db, sys.owner) && RunnersOwned(sys)
  }

  /** The wait lets no reverse key expire whose worker's HASH has no lifetime. */
  ghost predicate Lasts(db: Db, d: nat) {
    forall w :: Busy(db, w) && db.hash[w].expiry == None && db.hash[w].sid in db.calls ==>
      db.clock + d < db.calls[db.hash[w].sid].expiry
  }

  ghost predicate Timely(sys: Sys, st: Step) {
    st.Pass? ==> Lasts(sys.db, st.d)
  }

  lemma AssignKeepsSound(db: Db, owner: Owner, w: WorkerId, s: CallId, at: real)
    requires DbSound(db, owner) && NotOwnedElsewhere(owner, s, w)
    ensures DbSound(Assign(db, w, s, at), owner[s := w])
  {
    var db' := Assign(db, w, s, at);
    forall v | Busy(db', v) && v != w ensures db'.hash[v].sid != s {
      assert Busy(db, v) && OwnedBy(owner, db.hash[v].sid, v);
    }
  }

  lemma ReleaseKeepsSound(db: Db, owner: Owner, w: WorkerId, s: CallId)
    requires DbSound(db, owner) && OwnedBy(owner, s, w)
    ensures DbSound(Release(db, w, s), owner)
  {
    var db' := Release(db, w, s);
    forall v | Busy(db', v) ensures db'.hash[v].sid != s {
      assert Busy(db, v) && OwnedBy(owner, db.hash[v].sid, v);
    }
  }

  lemma RenameKeepsSound(db: Db, owner: Owner, o: CallId, n: CallId, w: WorkerId)
    requires DbSound(db, owner) && OwnedBy(owner, o, w) && OwnedBy(owner, n, w)
    ensures DbSound(Rename(db, o, n, w), owner)
  {
    var db' := Rename(db, o, n, w);
    forall v | Busy(db', v) && v != w ensures db'.hash[v].sid != o && db'.hash[v].sid != n {
      assert Busy(db, v) && OwnedBy(owner, db.hash[v].sid, v);
    }
  }

  /** A wait keeps every busy worker recoverable exactly when no immortal HASH outlives its reverse key. */
  lemma WaitKeepsRecoverableExactlyWhen(db: Db, owner: Owner, d: nat)
    requires DbSound(db, owner)
    ensures DbOwned(Elapse(db, d), owner) && Covered(Elapse(db, d))
    ensures Recoverable(Elapse(db, d)) <==> Lasts(db, d)
  {
    var db' := Elapse(db, d);
    if Lasts(db, d) {
      forall w | Busy(db', w) ensures db'.hash[w].sid in db'.calls {
        assert Busy(db, w);
      }
    } else {
      var w :| Busy(db, w) && db.hash[w].expiry == None && db.hash[w].sid in db.calls
        && db.clock + d >= db.calls[db.hash[w].sid].expiry;
      assert Busy(db', w) && db'.hash[w].sid !in db'.calls;
    }
  }

  lemma StepKeepsOpOwned(sys: Sys, st: Step, op: OpId)
    requires Sound(sys) && Enabled(sys, st) && op in Apply(sys, st).ops
    ensures OpOwned(Apply(sys, st).owner, Apply(sys, st).ops[op])
  {
    hide FirstFree, FindAndAssign, Busy, Release, Rename, Elapse, Clear, Assign, Covered, Recoverable;
    if op in sys.ops { assert OpOwned(sys.owner, sys.ops[op]); }
    if st.LookupRename? || st.LookupRelease? || st.ReleaseCached? {
      if st.op == op {
        assert RunnersOwned(sys) && DbOwned(sys.db, sys.owner);
      }
    }
  }

  lemma StepKeepsCacheOwned(sys: Sys, st: Step, k: (nat, WorkerId))
    requires Sound(sys) && Enabled(sys, st) && k in Apply(sys, st).cache
    ensures OwnedBy(Apply(sys, st).owner, Apply(sys, st).cache[k], k.1)
  {
    hide FirstFree, Release, Rename, Elapse, Clear, Assign, Covered, Recoverable;
    if k in sys.cache { assert OwnedBy(sys.owner, sys.cache[k], k.1); }
    if st.WriteCache? { assert OpOwned(sys.owner, sys.ops[st.op]); }
  }

  lemma StepKeepsRunnersOwned(sys: Sys, st: Step)
    requires Sound(sys) && Enabled(sys, st)
    ensures RunnersOwned(Apply(sys, st))
  {
    hide Apply;
    forall op | op in Apply(sys, st).ops ensures OpOwned(Apply(sys, st).owner, Apply(sys, st).ops[op]) {
      StepKeepsOpOwned(sys, st, op);
    }
    forall k | k in Apply(sys, st).cache ensures OwnedBy(Apply(sys, st).owner, Apply(sys, st).cache[k], k.1) {
      StepKeepsCacheOwned(sys, st, k);
    }
  }

  /** Every step keeps ownership and covering; recoverability it keeps exactly when it is not a wait that an
      immortal HASH outlives its reverse key in. */
  lemma StepKeepsRecoverableExactlyWhen(sys: Sys, st: Step)
    requires Sound(sys) && Enabled(sys, st)
    ensures RunnersOwned(Apply(sys, st))
    ensures DbOwned(Apply(sys, st).db, Apply(sys, st).owner) && Covered(Apply(sys, st).db)
    ensures Recoverable(Apply(sys, st).db) <==> Timely(sys, st)
  {
    hide RunnersOwned, DbOwned, Covered, Recoverable, Lasts, Elapse;
    StepKeepsRunnersOwned(sys, st);
    match st
    case Claim(op, cs, s, at) =>
      var r := FindAndAssign(sys.db, cs, s, at).1;
      if r.Some? { AssignKeepsSound(sys.db, sys.owner, r.value, s, at); }
    case LookupRename(op, o, n) =>
      if o in sys.db.calls { MoreOwners(sys.db, sys.owner, n, sys.db.calls[o].worker); }
    case RunScript(op, answered) =>
      OpIsOwned(sys, op);
      if sys.ops[op].Releasing? {
        ReleaseKeepsSound(sys.db, sys.owner, sys.ops[op].worker, sys.ops[op].sid);
      } else {
        RenameKeepsSound(sys.db, sys.owner, sys.ops[op].prior, sys.ops[op].next, sys.ops[op].worker);
      }
    case AdminClear(w) => ClearKeepsSound(sys.db, sys.owner, w);
    case Pass(d) => WaitKeepsRecoverableExactlyWhen(sys.db, sys.owner, d);
    case _ =>
  }

  lemma OpIsOwned(sys: Sys, op: OpId)
    requires RunnersOwned(sys) && op in sys.ops
    ensures OpOwned(sys.owner, sys.ops[op])
  {
  }

  lemma ClearKeepsSound(db: Db, owner: Owner, w: WorkerId)
    requires DbSound(db, owner)
    ensures DbSound(Clear(db, w), owner)
  {
    assert forall v :: Busy(Clear(db, w), v) ==> Busy(db, v);
  }

  lemma MoreOwners(db: Db, owner: Owner, n: CallId, w: WorkerId)
    requires DbOwned(db, owner) && NotOwnedElsewhere(owner, n, w)
    ensures DbOwned(db, owner[n := w])
  {
  }

  lemma StepKeepsSound(sys: Sys, st: Step)
    requires Sound(sys) && Enabled(sys, st) && Timely(sys, st)
    ensures Sound(Apply(sys, st))
  {
    StepKeepsRecoverableExactlyWhen(sys, st);
  }

  ghost predicate AllTimely(sys: Sys, run: seq<Step>)
    requires Legal(sys, run)
    decreases |run|
  {
    run == [] || (Timely(sys, run[0]) && AllTimely(Apply(sys, run[0]), run[1..]))
  }

  ghost predicate RecoverableThroughout(sys: Sys, run: seq<Step>)
    requires Legal(sys, run)
    decreases |run|
  {
    Recoverable(sys.db) && (run == [] || RecoverableThroughout(Apply(sys, run[0]), run[1..]))
  }

  /** Recoverability of every run: under every interleaving, with crashes at any point, repeated
      scripts, duplicate releases, releases by a stale local cache and admin clears, every busy worker is
      recoverable throughout exactly when no wait lets an immortal HASH outlive its reverse key. */
  lemma {:induction false} RunsAreRecoverableExactlyWhen(sys: Sys, run: seq<Step>)
    requires Sound(sys) && Legal(sys, run)
    ensures RecoverableThroughout(sys, run) <==> AllTimely(sys, run)
    ensures AllTimely(sys, run) ==> Sound(Exec(sys, run))
    decreases |run|
  {
    hide Apply, Timely, RunnersOwned, DbOwned, Covered, Recoverable;
    if run != [] {
      StepKeepsRecoverableExactlyWhen(sys, run[0]);
      if Timely(sys, run[0]) {
        RunsAreRecoverableExactlyWhen(Apply(sys, run[0]), run[1..]);
      }
    }
  }

  // ---- Time: which renames keep the TTL safety net ----

  /** Every busy worker stays recoverable however long nothing happens. */
  ghost predicate Lasting(db: Db) {
    forall d: nat :: Recoverable(Elapse(db, d))
  }

  ghost predicate BusyMortal(db: Db) {
    forall w :: Busy(db, w) ==> db.hash[w].expiry.Some?
  }

  /** That is so exactly when every busy worker's HASH has a lifetime. */
  lemma LastingExactlyWhen(db: Db, owner: Owner)
    requires DbSound(db, owner)
    ensures Lasting(db) <==> BusyMortal(db)
  {
    if BusyMortal(db) {
      forall d: nat ensures Recoverable(Elapse(db, d)) {
        WaitKeepsRecoverableExactlyWhen(db, owner, d);
      }
    } else {
      var w :| Busy(db, w) && db.hash[w].expiry == None;
      var d := db.calls[db.hash[w].sid].expiry;
      WaitKeepsRecoverableExactlyWhen(db, owner, d);
      assert !Lasts(db, d);
      assert !Recoverable(Elapse(db, d));
    }
  }

  /** The reassign script, with a non-empty id, runs on a HASH that has a lifetime. */
  predicate RenamesMortalHash(sys: Sys, st: Step) {
    st.RunScript? && st.op in sys.ops && sys.ops[st.op].Renaming? && sys.ops[st.op].next != "" ==>
      sys.ops[st.op].worker in sys.db.hash && sys.db.hash[sys.ops[st.op].worker].expiry.Some?
  }

  /** One step keeps a lifetime on every busy worker's HASH exactly when it does not rename on a HASH that
      is missing or has none. */
  lemma MortalExactlyWhenRenamedMortal(sys: Sys, st: Step)
    requires BusyMortal(sys.db) && Enabled(sys, st)
    ensures BusyMortal(Apply(sys, st).db) <==> RenamesMortalHash(sys, st)
  {
    var db' := Apply(sys, st).db;
    if st.RunScript? && sys.ops[st.op].Renaming? {
      var w := sys.ops[st.op].worker;
      assert forall v :: v != w && Busy(db', v) ==> Busy(sys.db, v) && db'.hash[v] == sys.db.hash[v];
      assert w in db'.hash && db'.hash[w].sid == sys.ops[st.op].next;
    } else {
      assert forall v :: Busy(db', v) ==>
        (Busy(sys.db, v) && db'.hash[v] == sys.db.hash[v]) || db'.hash[v].expiry.Some?;
    }
  }

  ghost predicate AllRenameMortal(sys: Sys, run: seq<Step>)
    requires Legal(sys, run)
    decreases |run|
  {
    run == [] || (RenamesMortalHash(sys, run[0]) && AllRenameMortal(Apply(sys, run[0]), run[1..]))
  }

  ghost predicate LastingThroughout(sys: Sys, run: seq<Step>)
    requires Legal(sys, run)
    decreases |run|
  {
    Lasting(sys.db) && (run == [] || LastingThroughout(Apply(sys, run[0]), run[1..]))
  }

  /** With arbitrary waiting inside the run and after any part of it: the reverse key never expires first
      exactly as long as every reassign runs on a HASH with a lifetime. */
  lemma {:induction false} RecoverableThroughTimeExactlyWhen(sys: Sys, run: seq<Step>)
    requires Sound(sys) && BusyMortal(sys.db) && Legal(sys, run)
    ensures LastingThroughout(sys, run) <==> AllRenameMortal(sys, run)
    ensures AllRenameMortal(sys, run) ==> RecoverableThroughout(sys, run)
    decreases |run|
  {
    hide Apply, RunnersOwned, DbOwned, Covered, Recoverable, BusyMortal, RenamesMortalHash, Lasting, Timely;
    LastingExactlyWhen(sys.db, sys.owner);
    if run != [] {
      var sys' := Apply(sys, run[0]);
      MortalIsTimely(sys, run[0]);
      StepKeepsSound(sys, run[0]);
      MortalExactlyWhenRenamedMortal(sys, run[0]);
      LastingExactlyWhen(sys'.db, sys'.owner);
      if RenamesMortalHash(sys, run[0]) {
        RecoverableThroughTimeExactlyWhen(sys', run[1..]);
      }
    }
  }

  lemma MortalIsTimely(sys: Sys, st: Step)
    requires BusyMortal(sys.db)
    ensures Timely(sys, st)
  {
  }

  /** What recoverability is for: a lookup by the id a busy worker shows, followed by the release
      script, frees that worker and removes that id, whatever happened before. */
  lemma ReleaseByShownIdFrees(sys: Sys, w: WorkerId, op: OpId)
    requires Sound(sys) && Busy(sys.db, w) && op !in sys.ops
    ensures var s := sys.db.hash[w].sid;
            var run := [LookupRelease(op, s), RunScript(op, true)];
            && Legal(sys, run)
            && !Busy(Exec(sys, run).db, w) && s !in Exec(sys, run).db.calls
            && forall w' :: w' != w && Busy(sys.db, w') ==> Busy(Exec(sys, run).db, w')
  {
    var s := sys.db.hash[w].sid;
    var run := [LookupRelease(op, s), RunScript(op, true)];
    var sys1 := Apply(sys, run[0]);
    var sys2 := Apply(sys1, run[1]);
    assert run[1..] == [run[1]] && run[1..][1..] == [];
    assert Exec(sys, run) == Exec(sys1, run[1..]) == Exec(sys2, []);
  }
}
