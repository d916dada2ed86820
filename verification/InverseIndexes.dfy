/** When the two Redis indexes are mutually inverse: exactly, script by script.

    The scripts compare nothing, so each one keeps the indexes mutually inverse under a condition that
    only its caller could check.  `Guard` is that condition, and it is exact for every script. */
module InverseIndexes {
  import opened RedisState

  /** Both indexes agree on the pair. */
  predicate Holds(db: Db, s: CallId, w: WorkerId) {
    s in db.calls && db.calls[s].worker == w && w in db.hash && db.hash[w].sid == s
  }

  predicate MutuallyInverse(db: Db) {
    && (forall w :: w in db.hash ==> db.hash[w].sid != "" && Holds(db, db.hash[w].sid, w))
    && (forall s :: s in db.calls ==> Holds(db, s, db.calls[s].worker))
  }

  // ------------------------------------------------------------------
  // Releases
  // ------------------------------------------------------------------

  /** A release of s frees some other call exactly when the worker it was looked up for has moved on to
      another call: the comparison that the script leaves out. */
  lemma ReleaseFreesAnotherCallExactlyWhen(db: Db, w: WorkerId, s: CallId)
    ensures (exists v :: Busy(db, v) && db.hash[v].sid != s && !Busy(Release(db, w, s), v))
            <==> (Busy(db, w) && db.hash[w].sid != s)
  {
    if Busy(db, w) && db.hash[w].sid != s {
      assert !Busy(Release(db, w, s), w);
    }
  }

  // ------------------------------------------------------------------
  // The guards
  // ------------------------------------------------------------------

  predicate ReleaseGuard(db: Db, w: WorkerId, s: CallId) {
    if w in db.hash then db.hash[w].sid == s else s !in db.calls
  }

  predicate RenameGuard(db: Db, o: CallId, n: CallId, w: WorkerId) {
    && n != ""
    && (o in db.calls ==> db.calls[o].worker == w)
    && (n in db.calls ==> db.calls[n].worker == w)
    && (w in db.hash ==> db.hash[w].sid == o || db.hash[w].sid == n)
  }

  predicate ClaimGuard(db: Db, candidates: seq<WorkerId>, s: CallId) {
    FirstFree(db, candidates) < |candidates| ==> s != "" && s !in db.calls
  }

  /** HASH and reverse key of a pair expire together, or neither does. */
  predicate WaitGuard(db: Db, d: nat) {
    forall w :: w in db.hash && db.hash[w].sid in db.calls ==>
      (HashLiveAt(db.hash[w], db.clock + d) <==> db.clock + d < db.calls[db.hash[w].sid].expiry)
  }

  predicate Guard(db: Db, e: Script) {
    match e
    case ClaimScript(cs, s, _) => ClaimGuard(db, cs, s)
    case ReleaseScript(w, s) => ReleaseGuard(db, w, s)
    case ClearScript(w) => w !in db.hash
    case RenameScript(o, n, w) => RenameGuard(db, o, n, w)
    case Wait(d) => WaitGuard(db, d)
  }

  // ------------------------------------------------------------------
  // Each guard is exact
  // ------------------------------------------------------------------

  lemma ReleaseKeepsInverseExactlyWhen(db: Db, w: WorkerId, s: CallId)
    requires MutuallyInverse(db)
    ensures MutuallyInverse(Release(db, w, s)) <==> ReleaseGuard(db, w, s)
  {
    var db' := Release(db, w, s);
    if ReleaseGuard(db, w, s) {
      forall v | v in db'.hash ensures Holds(db', db'.hash[v].sid, v) { assert Holds(db, db.hash[v].sid, v); }
      forall t | t in db'.calls ensures Holds(db', t, db'.calls[t].worker) { assert Holds(db, t, db.calls[t].worker); }
    } else if w in db.hash {
      var t := db.hash[w].sid;
      assert Holds(db, t, w) && t in db'.calls && !Holds(db', t, w);
    } else {
      var v := db.calls[s].worker;
      assert Holds(db, s, v) && v in db'.hash && !Holds(db', s, v);
    }
  }

  lemma ClearKeepsInverseExactlyWhen(db: Db, w: WorkerId)
    requires MutuallyInverse(db)
    ensures MutuallyInverse(Clear(db, w)) <==> w !in db.hash
  {
    var db' := Clear(db, w);
    if w in db.hash {
      var t := db.hash[w].sid;
      assert Holds(db, t, w) && t in db'.calls && !Holds(db', t, w);
    } else {
      assert db'.hash == db.hash;
    }
  }

  lemma RenameKeepsInverseExactlyWhen(db: Db, o: CallId, n: CallId, w: WorkerId)
    requires MutuallyInverse(db)
    ensures MutuallyInverse(Rename(db, o, n, w)) <==> RenameGuard(db, o, n, w)
  {
    var db' := Rename(db, o, n, w);
    if RenameGuard(db, o, n, w) {
      forall v | v in db'.hash && v != w ensures Holds(db', db'.hash[v].sid, v) { assert Holds(db, db.hash[v].sid, v); }
      forall t | t in db'.calls && t != n ensures Holds(db', t, db'.calls[t].worker) {
        assert Holds(db, t, db.calls[t].worker);
      }
    } else if n == "" {
      assert db'.hash[w].sid == "";
    } else if o in db.calls && db.calls[o].worker != w {
      var v := db.calls[o].worker;
      assert Holds(db, o, v) && v in db'.hash && !Holds(db', o, v);
    } else if n in db.calls && db.calls[n].worker != w {
      var v := db.calls[n].worker;
      assert Holds(db, n, v) && v in db'.hash && !Holds(db', n, v);
    } else {
      var y := db.hash[w].sid;
      assert Holds(db, y, w) && y in db'.calls && !Holds(db', y, w);
    }
  }

  lemma ClaimKeepsInverseExactlyWhen(db: Db, candidates: seq<WorkerId>, s: CallId, at: real)
    requires MutuallyInverse(db)
    ensures MutuallyInverse(FindAndAssign(db, candidates, s, at).0) <==> ClaimGuard(db, candidates, s)
  {
    var k := FirstFree(db, candidates);
    if k < |candidates| {
      var w, db' := candidates[k], FindAndAssign(db, candidates, s, at).0;
      assert w !in db.hash;
      if s == "" {
        assert db'.hash[w].sid == "";
      } else if s in db.calls {
        var v := db.calls[s].worker;
        assert Holds(db, s, v) && v in db'.hash && !Holds(db', s, v);
      } else {
        forall v | v in db'.hash && v != w ensures Holds(db', db'.hash[v].sid, v) {
          assert Holds(db, db.hash[v].sid, v);
        }
        forall t | t in db'.calls && t != s ensures Holds(db', t, db'.calls[t].worker) {
          assert Holds(db, t, db.calls[t].worker);
        }
      }
    }
  }

  lemma WaitKeepsInverseExactlyWhen(db: Db, d: nat)
    requires MutuallyInverse(db)
    ensures MutuallyInverse(Elapse(db, d)) <==> WaitGuard(db, d)
  {
    var db', t := Elapse(db, d), db.clock + d;
    if WaitGuard(db, d) {
      forall v | v in db'.hash ensures Holds(db', db'.hash[v].sid, v) { assert Holds(db, db.hash[v].sid, v); }
      forall s | s in db'.calls ensures Holds(db', s, db'.calls[s].worker) { assert Holds(db, s, db.calls[s].worker); }
    } else {
      var w :| w in db.hash && db.hash[w].sid in db.calls
        && !(HashLiveAt(db.hash[w], t) <==> t < db.calls[db.hash[w].sid].expiry);
      var s := db.hash[w].sid;
      assert Holds(db, s, w);
      if HashLiveAt(db.hash[w], t) {
        assert w in db'.hash && s !in db'.calls;
      } else {
        assert s in db'.calls && w !in db'.hash;
      }
    }
  }

  lemma ScriptKeepsInverseExactlyWhen(db: Db, e: Script)
    requires MutuallyInverse(db)
    ensures MutuallyInverse(Run(db, e)) <==> Guard(db, e)
  {
    hide MutuallyInverse, FindAndAssign, Release, Clear, Rename, Elapse;
    hide ClaimGuard, ReleaseGuard, RenameGuard, WaitGuard;
    match e
    case ClaimScript(cs, s, at) => ClaimKeepsInverseExactlyWhen(db, cs, s, at);
    case ReleaseScript(w, s) => ReleaseKeepsInverseExactlyWhen(db, w, s);
    case ClearScript(w) => ClearKeepsInverseExactlyWhen(db, w);
    case RenameScript(o, n, w) => RenameKeepsInverseExactlyWhen(db, o, n, w);
    case Wait(d) => WaitKeepsInverseExactlyWhen(db, d);
  }

  // ------------------------------------------------------------------
  // Whole runs
  // ------------------------------------------------------------------

  /** The indexes are mutually inverse before and after every script of the run. */
  predicate AlwaysInverse(db: Db, es: seq<Script>)
    decreases |es|
  {
    MutuallyInverse(db) && (es == [] || AlwaysInverse(Run(db, es[0]), es[1..]))
  }

  predicate AllGuarded(db: Db, es: seq<Script>)
    decreases |es|
  {
    es == [] || (Guard(db, es[0]) && AllGuarded(Run(db, es[0]), es[1..]))
  }

  /** A run of scripts, from any runners and in any order, keeps the indexes mutually inverse throughout
      exactly when each script meets its guard at the moment it runs. */
  lemma {:induction false} RunKeepsInverseExactlyWhen(db: Db, es: seq<Script>)
    requires MutuallyInverse(db)
    ensures AlwaysInverse(db, es) <==> AllGuarded(db, es)
    decreases |es|
  {
    hide MutuallyInverse, Run, Guard;
    if es != [] {
      ScriptKeepsInverseExactlyWhen(db, es[0]);
      if Guard(db, es[0]) {
        RunKeepsInverseExactlyWhen(Run(db, es[0]), es[1..]);
      } else {
        NotInverse(Run(db, es[0]), es[1..]);
      }
    }
  }

  lemma NotInverse(db: Db, es: seq<Script>)
    requires !MutuallyInverse(db)
    ensures !AlwaysInverse(db, es)
  {
  }

  /** As many busy workers as reverse keys. */
  lemma {:induction false} InverseCounts(db: Db)
    requires MutuallyInverse(db)
    ensures |db.hash| == |db.calls|
    decreases |db.calls|
  {
    hide MutuallyInverse;
    if db.calls == map[] {
      NoKeysNoHashes(db);
    } else {
      var s :| s in db.calls;
      var w := db.calls[s].worker;
      PairOf(db, s);
      ReleaseKeepsInverseExactlyWhen(db, w, s);
      var db' := Release(db, w, s);
      assert db'.hash.Keys == db.hash.Keys - {w} && db'.calls.Keys == db.calls.Keys - {s};
      assert |db'.calls| == |db'.calls.Keys| && |db.calls| == |db.calls.Keys|;
      assert |db'.hash| == |db'.hash.Keys| && |db.hash| == |db.hash.Keys|;
      InverseCounts(db');
    }
  }

  lemma NoKeysNoHashes(db: Db)
    requires MutuallyInverse(db) && db.calls == map[]
    ensures db.hash == map[]
  {
    assert forall w :: w in db.hash ==> db.hash[w].sid in db.calls;
  }

  lemma PairOf(db: Db, s: CallId)
    requires MutuallyInverse(db) && s in db.calls
    ensures Holds(db, s, db.calls[s].worker)
  {
  }
}
