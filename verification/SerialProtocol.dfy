/** The runner protocol and its strong invariant: mutually inverse indexes and true pairs.

    Which runs keep the indexes mutually inverse is known exactly: those in which every script meets its
    guard when it runs.  A discipline that a caller can follow ensures the guards: ids are fresh and
    non-empty, calls of pool methods on one id are serialised, each script runs once, and a release by a
    local cache or of an orphaned claim names a pair that is true and idle.  Then the strong invariant
    holds in every reachable state, with any number of runners and with crashes at any counter. */
module SerialProtocol {
  import opened Options
  import opened RedisState
  import opened InverseIndexes
  import opened RunnerProtocol

  // ------------------------------------------------------------------
  // Exactly which runs keep the indexes mutually inverse
  // ------------------------------------------------------------------

  /** The script that a step runs on Redis. */
  function ScriptOf(sys: Sys, st: Step): Option<Script>
    requires Enabled(sys, st)
  {
    match st
    case Claim(_, cs, s, at) => Some(ClaimScript(cs, s, at))
    case RunScript(op, _) =>
      (match sys.ops[op]
       case Releasing(s, w) => Some(ReleaseScript(w, s))
       case Renaming(o, n, w) => Some(RenameScript(o, n, w))
       case Caching(_, _) => None)
    case AdminClear(w) => Some(ClearScript(w))
    case Pass(d) => Some(Wait(d))
    case _ => None
  }

  predicate Guarded(sys: Sys, st: Step)
    requires Enabled(sys, st)
  {
    ScriptOf(sys, st).Some? ==> Guard(sys.db, ScriptOf(sys, st).value)
  }

  lemma StepRunsItsScript(sys: Sys, st: Step)
    requires Enabled(sys, st)
    ensures Apply(sys, st).db == if ScriptOf(sys, st).Some? then Run(sys.db, ScriptOf(sys, st).value) else sys.db
  {
  }

  lemma StepKeepsInverseExactlyWhen(sys: Sys, st: Step)
    requires Enabled(sys, st) && MutuallyInverse(sys.db)
    ensures MutuallyInverse(Apply(sys, st).db) <==> Guarded(sys, st)
  {
    hide MutuallyInverse, Apply, Run, Guard;
    StepRunsItsScript(sys, st);
    if ScriptOf(sys, st).Some? {
      ScriptKeepsInverseExactlyWhen(sys.db, ScriptOf(sys, st).value);
    }
  }

  predicate InverseThroughout(sys: Sys, run: seq<Step>)
    requires Legal(sys, run)
    decreases |run|
  {
    MutuallyInverse(sys.db) && (run == [] || InverseThroughout(Apply(sys, run[0]), run[1..]))
  }

  predicate GuardedThroughout(sys: Sys, run: seq<Step>)
    requires Legal(sys, run)
    decreases |run|
  {
    run == [] || (Guarded(sys, run[0]) && GuardedThroughout(Apply(sys, run[0]), run[1..]))
  }

  /** Over every run of any number of runners, with crashes, repeated scripts and stale caches: the
      indexes are mutually inverse throughout exactly when each script meets its guard when it runs. */
  lemma {:induction false} RunnersKeepInverseExactlyWhen(sys: Sys, run: seq<Step>)
    requires MutuallyInverse(sys.db) && Legal(sys, run)
    ensures InverseThroughout(sys, run) <==> GuardedThroughout(sys, run)
    decreases |run|
  {
    hide MutuallyInverse, Apply, Guarded;
    if run != [] {
      StepKeepsInverseExactlyWhen(sys, run[0]);
      if Guarded(sys, run[0]) {
        RunnersKeepInverseExactlyWhen(Apply(sys, run[0]), run[1..]);
      }
    }
  }

  // ------------------------------------------------------------------
  // A discipline that ensures the guards
  // ------------------------------------------------------------------

  predicate Mentions(p: Op, s: CallId) {
    match p
    case Releasing(s', _) => s' == s
    case Renaming(o, n, _) => o == s || n == s
    case Caching(_, _) => false
  }

  predicate Idle(sys: Sys, s: CallId) {
    forall op :: op in sys.ops ==> !Mentions(sys.ops[op], s)
  }

  /** Both indexes have the pair, and no method call past its lookup names the id. */
  predicate TrueAndIdle(sys: Sys, s: CallId, w: WorkerId) {
    Holds(sys.db, s, w) && Idle(sys, s)
  }

  ghost predicate Serial(sys: Sys, st: Step) {
    && Enabled(sys, st)
    && match st
       case Claim(_, _, s, _) => s != "" && s !in sys.owner
       case LookupRelease(_, s) => Idle(sys, s)
       case LookupRename(_, o, n) => n != "" && n !in sys.owner && Idle(sys, o)
       case RunScript(_, answered) => answered
       case Pass(d) => Elapse(sys.db, d) == sys.db.(clock := sys.db.clock + d)
       case ReleaseOrphan(op) => TrueAndIdle(sys, sys.ops[op].sid, sys.ops[op].worker)
       case ReleaseCached(op, w) => TrueAndIdle(sys, sys.cache[(op.runner, w)], w)
       case AdminClear(w) => w !in sys.db.hash
       case WriteCache(_) => true
       case WorkerReports(_, _, _) => true
       case Crash(_, _) => true
  }

  predicate OpTrue(sys: Sys, p: Op) {
    match p
    case Releasing(s, w) => Holds(sys.db, s, w)
    case Renaming(o, n, w) => Holds(sys.db, o, w) && n !in sys.db.calls && n in sys.owner && n != "" && n != o
    case Caching(_, _) => true
  }

  /** Every method call past its lookup still holds a true pair, and no two share an id. */
  predicate OpsTrue(sys: Sys) {
    && (forall op :: op in sys.ops ==> OpTrue(sys, sys.ops[op]))
    && (forall p, q :: p in sys.ops && q in sys.ops && p != q ==> Separate(sys.ops[p], sys.ops[q]))
  }

  predicate Separate(p: Op, q: Op) {
    match p
    case Releasing(s, _) => !Mentions(q, s)
    case Renaming(o, n, _) => !Mentions(q, o) && !Mentions(q, n)
    case Caching(_, _) => true
  }

  predicate Strong(sys: Sys) {
    && MutuallyInverse(sys.db)
    && OpsTrue(sys)
    && forall s :: s in sys.db.calls ==> s in sys.owner
  }

  /** The discipline ensures the guards. */
  lemma SerialIsGuarded(sys: Sys, st: Step)
    requires Strong(sys) && Serial(sys, st)
    ensures Guarded(sys, st)
  {
    if st.RunScript? { assert OpTrue(sys, sys.ops[st.op]); }
    if st.Pass? { assert Elapse(sys.db, st.d).hash == sys.db.hash && Elapse(sys.db, st.d).calls == sys.db.calls; }
  }

  lemma StepKeepsInverse(sys: Sys, st: Step)
    requires Strong(sys) && Serial(sys, st)
    ensures MutuallyInverse(Apply(sys, st).db)
  {
    SerialIsGuarded(sys, st);
    StepKeepsInverseExactlyWhen(sys, st);
  }

  /** A method call that does not move keeps its true pair. */
  lemma OtherOpStaysTrue(sys: Sys, st: Step, op: OpId)
    requires Strong(sys) && Serial(sys, st) && op in sys.ops
    requires st.RunScript? ==> st.op != op
    ensures OpTrue(Apply(sys, st), sys.ops[op])
  {
    assert OpTrue(sys, sys.ops[op]);
    match st
    case RunScript(op', _) =>
      assert OpTrue(sys, sys.ops[op']) && Separate(sys.ops[op'], sys.ops[op]);
    case Claim(op', cs, s, at) =>
      var k := FirstFree(sys.db, cs);
    case _ =>
  }

  lemma StepKeepsOpsTrue(sys: Sys, st: Step)
    requires Strong(sys) && Serial(sys, st)
    ensures OpsTrue(Apply(sys, st))
  {
    var sys' := Apply(sys, st);
    forall op | op in sys'.ops ensures OpTrue(sys', sys'.ops[op]) {
      if op in sys.ops && sys.ops[op] == sys'.ops[op] && !(st.RunScript? && st.op == op) {
        OtherOpStaysTrue(sys, st, op);
      }
    }
    forall p, q | p in sys'.ops && q in sys'.ops && p != q ensures Separate(sys'.ops[p], sys'.ops[q]) {
      StepKeepsSeparate(sys, st, p, q);
    }
  }

  /** Every id that a method call past its lookup names was introduced. */
  lemma OpIdsAreOwned(sys: Sys, p: Op)
    requires OpTrue(sys, p) && forall s :: s in sys.db.calls ==> s in sys.owner
    ensures forall s :: Mentions(p, s) ==> s in sys.owner
  {
  }

  lemma StepKeepsSeparate(sys: Sys, st: Step, p: OpId, q: OpId)
    requires Strong(sys) && Serial(sys, st)
    requires var ops' := Apply(sys, st).ops; p in ops' && q in ops' && p != q
    ensures var ops' := Apply(sys, st).ops; Separate(ops'[p], ops'[q])
  {
    hide FirstFree, Holds, MutuallyInverse, Release, Rename, Elapse, Clear, Assign;
    if p in sys.ops { OpIdsAreOwned(sys, sys.ops[p]); }
    if q in sys.ops { OpIdsAreOwned(sys, sys.ops[q]); }
    if p in sys.ops { assert OpTrue(sys, sys.ops[p]); }
    if q in sys.ops { assert OpTrue(sys, sys.ops[q]); }
    if p in sys.ops && q in sys.ops { assert Separate(sys.ops[p], sys.ops[q]); }
  }

  lemma StepKeepsStrong(sys: Sys, st: Step)
    requires Strong(sys) && Serial(sys, st)
    ensures Strong(Apply(sys, st))
  {
    StepKeepsInverse(sys, st);
    StepKeepsOpsTrue(sys, st);
    if st.RunScript? { assert OpTrue(sys, sys.ops[st.op]); }
  }

  ghost predicate AllSerial(sys: Sys, run: seq<Step>)
    requires Legal(sys, run)
    decreases |run|
  {
    run == [] || (Serial(sys, run[0]) && AllSerial(Apply(sys, run[0]), run[1..]))
  }

  /** Safety over whole runs: the indexes are mutually inverse in every reachable state. */
  lemma {:induction false} SerialRunsKeepStrong(sys: Sys, run: seq<Step>)
    requires Strong(sys) && Legal(sys, run) && AllSerial(sys, run)
    ensures Strong(Exec(sys, run))
    decreases |run|
  {
    if run != [] {
      StepKeepsStrong(sys, run[0]);
      SerialRunsKeepStrong(Apply(sys, run[0]), run[1..]);
    }
  }

  /** The same from the start of the deployment, with the count of keys. */
  lemma ReachableStatesAreInverse(run: seq<Step>)
    requires Legal(INITIAL, run) && AllSerial(INITIAL, run)
    ensures var sys := Exec(INITIAL, run);
            MutuallyInverse(sys.db) && OpsTrue(sys) && |sys.db.hash| == |sys.db.calls|
  {
    SerialRunsKeepStrong(INITIAL, run);
    InverseCounts(Exec(INITIAL, run).db);
  }

  /** Hence a release of one call never frees another: the script of a looked-up release takes
      away its own pair and nothing else; likewise a rename moves its own pair. */
  lemma ScriptTouchesOnlyItsPair(sys: Sys, op: OpId)
    requires Strong(sys) && op in sys.ops && !sys.ops[op].Caching?
    ensures var p := sys.ops[op];
            var s := if p.Releasing? then p.sid else p.prior;
            var db' := Apply(sys, RunScript(op, true)).db;
            && Holds(sys.db, s, p.worker) && s !in db'.calls
            && (forall t, w :: t != s && Holds(sys.db, t, w) ==> Holds(db', t, w))
            && (forall t, w :: Holds(db', t, w) ==>
                  Holds(sys.db, t, w) || (p.Renaming? && t == p.next && w == p.worker))
            && (p.Renaming? ==> Holds(db', p.next, p.worker))
  {
    assert OpTrue(sys, sys.ops[op]);
  }

  // ------------------------------------------------------------------
  // Without the discipline
  // ------------------------------------------------------------------

  /** Two runners release call s on worker w; runner 2's script comes after w was given to t. */
  function DuplicateRelease(w: WorkerId, s: CallId, t: CallId): seq<Step> {
    [Claim(OpId(1, 0), [w], s, 0.0), LookupRelease(OpId(1, 1), s), LookupRelease(OpId(2, 1), s),
     RunScript(OpId(1, 1), true), Claim(OpId(3, 0), [w], t, 0.0), RunScript(OpId(2, 1), true)]
  }

  /** One runner releases s once, but the reply is lost and _with_retry runs the script again. */
  function RetriedRelease(w: WorkerId, s: CallId, t: CallId): seq<Step> {
    [Claim(OpId(1, 0), [w], s, 0.0), LookupRelease(OpId(1, 1), s),
     RunScript(OpId(1, 1), false), Claim(OpId(3, 0), [w], t, 0.0), RunScript(OpId(1, 1), true)]
  }

  /** s is released while a rename of it to n is between its lookup and its script; then the
      keys' lifetime passes. */
  function RenameAfterRelease(w: WorkerId, s: CallId, n: CallId): seq<Step> {
    [Claim(OpId(1, 0), [w], s, 0.0), LookupRename(OpId(1, 1), s, n), LookupRelease(OpId(2, 1), s),
     RunScript(OpId(2, 1), true), RunScript(OpId(1, 1), true), Pass(KEY_TTL)]
  }

  /** Runner 2 claims w for s and caches it; runner 1 releases s and claims w for t.  Then the health
      reader of runner 2, whose cache still shows s, releases by that cache. */
  function StaleCacheRelease(w: WorkerId, s: CallId, t: CallId): seq<Step> {
    [Claim(OpId(2, 0), [w], s, 0.0), WriteCache(OpId(2, 0)), LookupRelease(OpId(1, 0), s),
     RunScript(OpId(1, 0), true), Claim(OpId(1, 1), [w], t, 0.0), ReleaseCached(OpId(2, 1), w),
     RunScript(OpId(2, 1), true)]
  }

  lemma ClaimOne(sys: Sys, op: OpId, w: WorkerId, s: CallId)
    requires !Busy(sys.db, w) && op !in sys.ops && NotOwnedElsewhere(sys.owner, s, w)
    ensures var st := Claim(op, [w], s, 0.0);
            && Enabled(sys, st)
            && Apply(sys, st) == sys.(db := Assign(sys.db, w, s, 0.0), ops := sys.ops[op := Caching(s, w)],
                                      owner := sys.owner[s := w])
  {
    assert FirstFree(sys.db, [w]) == 0;
  }

  lemma ExecNone(sys: Sys)
    ensures Legal(sys, []) && Exec(sys, []) == sys
  {
  }

  lemma ExecStep(sys: Sys, run: seq<Step>)
    requires run != [] && Enabled(sys, run[0])
    ensures Legal(sys, run) <==> Legal(Apply(sys, run[0]), run[1..])
    ensures Legal(sys, run) ==> Exec(sys, run) == Exec(Apply(sys, run[0]), run[1..])
  {
  }

  /** All four runs obey the weak discipline (ids are given to one worker each).  In the first three
      the later call t loses its worker although only s was ever released; in the fourth the worker
      is busy with an id that no lookup finds, and its HASH never expires. */
  lemma StrongNeedsTheDiscipline(w: WorkerId, s: CallId, t: CallId)
    requires s != "" && t != "" && s != t
    ensures var run := DuplicateRelease(w, s, t);
            Legal(INITIAL, run) && var db := Exec(INITIAL, run).db; w !in db.hash && t in db.calls
    ensures var run := RetriedRelease(w, s, t);
            Legal(INITIAL, run) && var db := Exec(INITIAL, run).db; w !in db.hash && t in db.calls
    ensures var run := StaleCacheRelease(w, s, t);
            Legal(INITIAL, run) && var db := Exec(INITIAL, run).db; w !in db.hash && t in db.calls
    ensures var run := RenameAfterRelease(w, s, t);
            Legal(INITIAL, run) && var db := Exec(INITIAL, run).db;
            Busy(db, w) && db.hash[w] == Hash(t, None, None) && t !in db.calls
  {
    DuplicateReleaseRuns(w, s, t);
    RetriedReleaseRuns(w, s, t);
    StaleCacheReleaseRuns(w, s, t);
    RenameAfterReleaseRuns(w, s, t);
  }

  lemma DuplicateReleaseRuns(w: WorkerId, s: CallId, t: CallId)
    requires s != "" && t != "" && s != t
    ensures var run := DuplicateRelease(w, s, t);
            Legal(INITIAL, run) && var db := Exec(INITIAL, run).db; w !in db.hash && t in db.calls
  {
    hide Legal, Exec;
    var run := DuplicateRelease(w, s, t);
    ClaimOne(INITIAL, OpId(1, 0), w, s);
    var s1 := Apply(INITIAL, run[0]);
    var s2 := Apply(s1, run[1]);
    var s3 := Apply(s2, run[2]);
    var s4 := Apply(s3, run[3]);
    ClaimOne(s4, OpId(3, 0), w, t);
    var s5 := Apply(s4, run[4]);
    ExecStep(INITIAL, run);
    ExecStep(s1, run[1..]);
    ExecStep(s2, run[2..]);
    ExecStep(s3, run[3..]);
    ExecStep(s4, run[4..]);
    ExecStep(s5, run[5..]);
    ExecNone(Apply(s5, run[5]));
    assert run[5..][1..] == [];
  }

  lemma RetriedReleaseRuns(w: WorkerId, s: CallId, t: CallId)
    requires s != "" && t != "" && s != t
    ensures var run := RetriedRelease(w, s, t);
            Legal(INITIAL, run) && var db := Exec(INITIAL, run).db; w !in db.hash && t in db.calls
  {
    hide Legal, Exec;
    var run := RetriedRelease(w, s, t);
    ClaimOne(INITIAL, OpId(1, 0), w, s);
    var s1 := Apply(INITIAL, run[0]);
    var s2 := Apply(s1, run[1]);
    var s3 := Apply(s2, run[2]);
    ClaimOne(s3, OpId(3, 0), w, t);
    var s4 := Apply(s3, run[3]);
    ExecStep(INITIAL, run);
    ExecStep(s1, run[1..]);
    ExecStep(s2, run[2..]);
    ExecStep(s3, run[3..]);
    ExecStep(s4, run[4..]);
    ExecNone(Apply(s4, run[4]));
    assert run[4..][1..] == [];
  }

  lemma StaleCacheReleaseRuns(w: WorkerId, s: CallId, t: CallId)
    requires s != "" && t != "" && s != t
    ensures var run := StaleCacheRelease(w, s, t);
            Legal(INITIAL, run) && var db := Exec(INITIAL, run).db; w !in db.hash && t in db.calls
  {
    hide Legal, Exec;
    var run := StaleCacheRelease(w, s, t);
    ClaimOne(INITIAL, OpId(2, 0), w, s);
    var s1 := Apply(INITIAL, run[0]);
    var s2 := Apply(s1, run[1]);
    var s3 := Apply(s2, run[2]);
    var s4 := Apply(s3, run[3]);
    assert w !in s4.db.hash && s4.ops == map[] && s4.cache == map[(2, w) := s] && s4.owner == map[s := w];
    assert run[1..][1..] == run[2..] && run[2..][1..] == run[3..] && run[3..][1..] == run[4..];
    StaleCacheEnds(s4, w, s, t, run[4..]);
    ExecStep(INITIAL, run);
    ExecStep(s1, run[1..]);
    ExecStep(s2, run[2..]);
    ExecStep(s3, run[3..]);
  }

  lemma StaleCacheEnds(s4: Sys, w: WorkerId, s: CallId, t: CallId, run: seq<Step>)
    requires s != "" && t != "" && s != t
    requires w !in s4.db.hash && s4.ops == map[] && s4.cache == map[(2, w) := s] && s4.owner == map[s := w]
    requires run == [Claim(OpId(1, 1), [w], t, 0.0), ReleaseCached(OpId(2, 1), w), RunScript(OpId(2, 1), true)]
    ensures Legal(s4, run) && var db := Exec(s4, run).db; w !in db.hash && t in db.calls
  {
    hide Legal, Exec;
    ClaimOne(s4, OpId(1, 1), w, t);
    var s5 := Apply(s4, run[0]);
    var s6 := Apply(s5, run[1]);
    ExecStep(s4, run);
    ExecStep(s5, run[1..]);
    ExecStep(s6, run[2..]);
    ExecNone(Apply(s6, run[2]));
    assert run[2..][1..] == [];
  }

  lemma RenameAfterReleaseRuns(w: WorkerId, s: CallId, n: CallId)
    requires s != "" && n != "" && s != n
    ensures var run := RenameAfterRelease(w, s, n);
            Legal(INITIAL, run) && var db := Exec(INITIAL, run).db;
            Busy(db, w) && db.hash[w] == Hash(n, None, None) && n !in db.calls
  {
    hide Legal, Exec;
    var run := RenameAfterRelease(w, s, n);
    ClaimOne(INITIAL, OpId(1, 0), w, s);
    var s1 := Apply(INITIAL, run[0]);
    var s2 := Apply(s1, run[1]);
    var s3 := Apply(s2, run[2]);
    var s4 := Apply(s3, run[3]);
    var s5 := Apply(s4, run[4]);
    ExecStep(INITIAL, run);
    ExecStep(s1, run[1..]);
    ExecStep(s2, run[2..]);
    ExecStep(s3, run[3..]);
    ExecStep(s4, run[4..]);
    ExecStep(s5, run[5..]);
    ExecNone(Apply(s5, run[5]));
    assert run[5..][1..] == [];
  }
}
