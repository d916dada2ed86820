/** The shared assignment store of app/services/worker_pool/redis_state.py.

    Two indexes are kept in Redis: a HASH per worker (current_call_sid, assigned_at) and a
    STRING per call (the worker that holds it).  They change only through three Lua scripts
    and one HDEL.  `Db` is the abstract content of the two indexes; each script is a function
    on `Db`, and the class `RedisStateBackend` runs the scripts step by step and is proved to
    compute those functions. */
module RedisState {
  import opened Options

  // instance ids fall back to the host name and are never empty
  type WorkerId = s: string | s != "" witness "worker"
  type CallId = string

  /** Lifetime of both keys, in seconds. */
  const KEY_TTL: nat := 86400

  /** A worker HASH.  `expiry` is None when the key carries no TTL. */
  datatype Hash = Hash(sid: CallId, assignedAt: Option<real>, expiry: Option<nat>)

  /** A reverse-mapping key; it is always SET with an expiry. */
  datatype CallKey = CallKey(worker: WorkerId, expiry: nat)

  datatype Db = Db(hash: map<WorkerId, Hash>, calls: map<CallId, CallKey>, clock: nat)

  const EMPTY_DB := Db(map[], map[], 0)

  /** The availability test of the claiming script: an absent field and an empty one are both free. */
  predicate Busy(db: Db, w: WorkerId) {
    w in db.hash && db.hash[w].sid != ""
  }

  /** Index of the first free candidate, or the number of candidates when all are busy. */
  function FirstFree(db: Db, candidates: seq<WorkerId>): (k: nat)
    ensures k <= |candidates|
    ensures forall j :: 0 <= j < k ==> Busy(db, candidates[j])
    ensures k < |candidates| ==> !Busy(db, candidates[k])
  {
    if candidates == [] || !Busy(db, candidates[0]) then 0 else 1 + FirstFree(db, candidates[1..])
  }

  /** The writes of a successful claim. */
  function Assign(db: Db, w: WorkerId, s: CallId, at: real): Db {
    db.(hash := db.hash[w := Hash(s, Some(at), Some(db.clock + KEY_TTL))],
        calls := db.calls[s := CallKey(w, db.clock + KEY_TTL)])
  }

  function FindAndAssign(db: Db, candidates: seq<WorkerId>, s: CallId, at: real): (Db, Option<WorkerId>) {
    var k := FirstFree(db, candidates);
    if k < |candidates| then (Assign(db, candidates[k], s, at), Some(candidates[k])) else (db, None)
  }

  /** HDEL of the only two fields removes the HASH key itself.  Nothing is compared. */
  function Release(db: Db, w: WorkerId, s: CallId): Db {
    db.(hash := db.hash - {w}, calls := db.calls - {s})
  }

  function Clear(db: Db, w: WorkerId): Db {
    db.(hash := db.hash - {w})
  }

  /** HSET keeps the TTL of an existing HASH and creates one without TTL otherwise. */
  function Rename(db: Db, prior: CallId, next: CallId, w: WorkerId): Db {
    db.(calls := (db.calls - {prior})[next := CallKey(w, db.clock + KEY_TTL)],
        hash := db.hash[w := if w in db.hash then db.hash[w].(sid := next) else Hash(next, None, None)])
  }

  predicate HashLiveAt(h: Hash, t: nat) {
    h.expiry.Some? ==> t < h.expiry.value
  }

  /** Time passes; keys whose expiry is reached are gone. */
  function Elapse(db: Db, d: nat): Db {
    var t := db.clock + d;
    Db(map w | w in db.hash && HashLiveAt(db.hash[w], t) :: db.hash[w],
       map s | s in db.calls && t < db.calls[s].expiry :: db.calls[s],
       t)
  }

  /** One server-side step. */
  datatype Script =
    | ClaimScript(candidates: seq<WorkerId>, sid: CallId, at: real)
    | ReleaseScript(worker: WorkerId, sid: CallId)
    | ClearScript(worker: WorkerId)
    | RenameScript(prior: CallId, next: CallId, worker: WorkerId)
    | Wait(d: nat)

  function Run(db: Db, e: Script): Db {
    match e
    case ClaimScript(cs, s, at) => FindAndAssign(db, cs, s, at).0
    case ReleaseScript(w, s) => Release(db, w, s)
    case ClearScript(w) => Clear(db, w)
    case RenameScript(o, n, w) => Rename(db, o, n, w)
    case Wait(d) => Elapse(db, d)
  }

  function RunAll(db: Db, es: seq<Script>): Db
    decreases |es|
  {
    if es == [] then db else RunAll(Run(db, es[0]), es[1..])
  }

  // ------------------------------------------------------------------
  // What one claim does
  // ------------------------------------------------------------------

  /** find_and_assign returns the first free candidate and fails exactly when all are busy;
      no other worker and no other call key changes. */
  lemma ClaimIsFirstFree(db: Db, candidates: seq<WorkerId>, s: CallId, at: real)
    ensures var (db', r) := FindAndAssign(db, candidates, s, at);
            && (r == None <==> forall w :: w in candidates ==> Busy(db, w))
            && (r == None ==> db' == db)
            && (r.Some? ==>
                  && (exists k :: 0 <= k < |candidates| && candidates[k] == r.value && !Busy(db, r.value)
                                  && forall j :: 0 <= j < k ==> Busy(db, candidates[j]))
                  && db'.hash[r.value].sid == s && db'.calls[s].worker == r.value
                  && db'.hash - {r.value} == db.hash - {r.value}
                  && db'.calls - {s} == db.calls - {s})
  {
    var k := FirstFree(db, candidates);
    if k < |candidates| {
      assert candidates[k] in candidates && !Busy(db, candidates[k]);
    } else {
      forall w | w in candidates ensures Busy(db, w) {
        var j :| 0 <= j < |candidates| && candidates[j] == w;
      }
    }
  }

  // ------------------------------------------------------------------
  // Exclusivity over any run of scripts
  // ------------------------------------------------------------------

  predicate Claims(db: Db, e: Script, w: WorkerId) {
    e.ClaimScript? && FindAndAssign(db, e.candidates, e.sid, e.at).1 == Some(w)
  }

  /** The steps that can free worker w, read off the scripts and not off the state. */
  predicate CanFree(db: Db, e: Script, w: WorkerId) {
    match e
    case ClaimScript(_, _, _) => false
    case ReleaseScript(w', _) => w' == w
    case ClearScript(w') => w' == w
    case RenameScript(_, n, w') => w' == w && n == ""
    case Wait(d) => w in db.hash && !HashLiveAt(db.hash[w], db.clock + d)
  }

  /** CanFree is exact, and a busy worker is never claimed. */
  lemma FreeingSteps(db: Db, e: Script, w: WorkerId)
    requires Busy(db, w)
    ensures CanFree(db, e, w) <==> !Busy(Run(db, e), w)
    ensures !Claims(db, e, w)
  {
    if e.ClaimScript? {
      var k := FirstFree(db, e.candidates);
      if k < |e.candidates| { assert e.candidates[k] != w; }
    }
  }

  lemma Between(es: seq<Script>, a: nat, b: nat, k: nat)
    requires a + k <= b <= |es|
    ensures es[..a + k] == es[..a] + es[a..b][..k] && es[a..b][..b - a] == es[a..b]
  {
  }

  lemma ClaimMakesBusy(db: Db, e: Script, w: WorkerId)
    requires Claims(db, e, w) && e.sid != ""
    ensures Busy(Run(db, e), w)
  {
  }

  lemma {:induction false} StaysBusy(db: Db, es: seq<Script>, w: WorkerId)
    requires Busy(db, w)
    requires forall k :: 0 <= k < |es| ==> !CanFree(RunAll(db, es[..k]), es[k], w)
    ensures Busy(RunAll(db, es), w)
    decreases |es|
  {
    if es != [] {
      assert es[..0] == [];
      var db1 := Run(db, es[0]);
      assert !CanFree(db, es[0], w) by { assert RunAll(db, es[..0]) == db; }
      FreeingSteps(db, es[0], w);
      forall k | 0 <= k < |es[1..]| ensures !CanFree(RunAll(db1, es[1..][..k]), es[1..][k], w) {
        assert es[..k + 1][1..] == es[1..][..k];
        assert !CanFree(RunAll(db, es[..k + 1]), es[k + 1], w);
      }
      StaysBusy(db1, es[1..], w);
    }
  }

  lemma {:induction false} RunAllConcat(db: Db, xs: seq<Script>, ys: seq<Script>)
    ensures RunAll(db, xs + ys) == RunAll(RunAll(db, xs), ys)
    decreases |xs|
  {
    if xs == [] {
      assert xs + ys == ys;
    } else {
      assert (xs + ys)[1..] == xs[1..] + ys;
      RunAllConcat(Run(db, xs[0]), xs[1..], ys);
    }
  }

  /** Between two successful claims of one worker some step frees it: whatever the runners'
      caches offered as candidates, and whatever else ran in between. */
  lemma Exclusivity(db: Db, es: seq<Script>, i: nat, j: nat, w: WorkerId)
    requires i < j < |es| && es[i].ClaimScript? && es[i].sid != ""
    requires Claims(RunAll(db, es[..i]), es[i], w)
    requires Claims(RunAll(db, es[..j]), es[j], w)
    ensures exists k :: i < k < j && CanFree(RunAll(db, es[..k]), es[k], w)
  {
    hide FindAndAssign, CanFree, Claims, Busy;
    var head, mid := es[..i + 1], es[i + 1..j];
    var db1 := RunAll(db, head);
    assert Busy(db1, w) by {
      assert head == es[..i] + [es[i]];
      RunAllConcat(db, es[..i], [es[i]]);
      ClaimMakesBusy(RunAll(db, es[..i]), es[i], w);
    }
    if k :| 0 <= k < |mid| && CanFree(RunAll(db1, mid[..k]), mid[k], w) {
      Between(es, i + 1, j, k);
      RunAllConcat(db, head, mid[..k]);
      assert CanFree(RunAll(db, es[..i + 1 + k]), es[i + 1 + k], w);
    } else {
      StaysBusy(db1, mid, w);
      Between(es, i + 1, j, |mid|);
      RunAllConcat(db, head, mid);
      FreeingSteps(RunAll(db, es[..j]), es[j], w);
      assert false;
    }
  }

  // ------------------------------------------------------------------
  // How long a claim lasts
  // ------------------------------------------------------------------

  /** A claim for a non-empty id records its time and holds both keys for 24 hours, to the second. */
  lemma ClaimLasts(db: Db, candidates: seq<WorkerId>, s: CallId, at: real, w: WorkerId, d: nat)
    requires FindAndAssign(db, candidates, s, at).1 == Some(w) && s != ""
    ensures var db' := FindAndAssign(db, candidates, s, at).0;
            && db'.hash[w].assignedAt == Some(at)
            && (Busy(Elapse(db', d), w) <==> d < 24 * 60 * 60)
            && (s in Elapse(db', d).calls <==> d < 24 * 60 * 60)
  {
  }

  /** A rename holds its reverse key for 24 hours and leaves lifetime and assignment time of the HASH. */
  lemma RenameLasts(db: Db, o: CallId, n: CallId, w: WorkerId, d: nat)
    requires n != "" && w in db.hash
    ensures var db' := Rename(db, o, n, w);
            && (n in Elapse(db', d).calls <==> d < 24 * 60 * 60)
            && db'.hash[w].assignedAt == db.hash[w].assignedAt
            && (w in Elapse(db', d).hash <==> w in Elapse(db, d).hash)
            && (w in Elapse(db', d).hash ==> Elapse(db', d).hash[w].sid == n)
  {
  }

  /** The script releases, clears or renames worker w to no call. */
  predicate Frees(e: Script, w: WorkerId) {
    match e
    case ReleaseScript(w', _) => w' == w
    case ClearScript(w') => w' == w
    case RenameScript(_, n, w') => w' == w && n == ""
    case _ => false
  }

  /** The script may write the HASH of w. */
  predicate Touches(e: Script, w: WorkerId) {
    Frees(e, w) || (e.ClaimScript? && w in e.candidates) || (e.RenameScript? && e.worker == w)
  }

  function TotalWait(es: seq<Script>): nat {
    if es == [] then 0 else (if es[0].Wait? then es[0].d else 0) + TotalWait(es[1..])
  }

  /** The HASH of w is busy and lives for `left` more seconds. */
  predicate HeldFor(db: Db, w: WorkerId, left: nat) {
    Busy(db, w) && db.hash[w].expiry == Some(db.clock + left)
  }

  lemma StepHolds(db: Db, e: Script, w: WorkerId, left: nat)
    requires HeldFor(db, w, left) && !Frees(e, w)
    ensures !e.Wait? ==> HeldFor(Run(db, e), w, left)
    ensures e.Wait? && e.d < left ==> HeldFor(Run(db, e), w, left - e.d)
    ensures e.Wait? && e.d >= left ==> !Busy(Run(db, e), w)
  {
    if e.ClaimScript? {
      var k := FirstFree(db, e.candidates);
      if k < |e.candidates| { assert e.candidates[k] != w; }
    }
  }

  /** Over any run of scripts, of any runners, that does not free w: it is held as long as the waits sum to
      less than what is left of its lifetime. */
  lemma {:induction false} RunHolds(db: Db, es: seq<Script>, w: WorkerId, left: nat)
    requires HeldFor(db, w, left) && (forall e :: e in es ==> !Frees(e, w)) && TotalWait(es) < left
    ensures Busy(RunAll(db, es), w)
    decreases |es|
  {
    hide Run, Frees;
    if es != [] {
      assert es[0] in es;
      StepHolds(db, es[0], w, left);
      RunHolds(Run(db, es[0]), es[1..], w, if es[0].Wait? then left - es[0].d else left);
    }
  }

  lemma {:induction false} FreeStaysFree(db: Db, es: seq<Script>, w: WorkerId)
    requires !Busy(db, w) && forall e :: e in es ==> !Touches(e, w)
    ensures !Busy(RunAll(db, es), w)
    decreases |es|
  {
    if es != [] {
      assert es[0] in es;
      if es[0].ClaimScript? {
        var k := FirstFree(db, es[0].candidates);
        if k < |es[0].candidates| { assert es[0].candidates[k] in es[0].candidates; }
      }
      FreeStaysFree(Run(db, es[0]), es[1..], w);
    }
  }

  /** If nothing else writes the HASH of w, it is held exactly as long as that. */
  lemma {:induction false} RunHoldsExactlyWhen(db: Db, es: seq<Script>, w: WorkerId, left: nat)
    requires HeldFor(db, w, left) && forall e :: e in es ==> !Touches(e, w)
    ensures left > 0 ==> (Busy(RunAll(db, es), w) <==> TotalWait(es) < left)
    decreases |es|
  {
    hide Run, Touches, Frees;
    if es != [] && left > 0 {
      assert es[0] in es;
      NoTouchNoFree(es[0], w);
      StepHolds(db, es[0], w, left);
      if es[0].Wait? && es[0].d >= left {
        FreeStaysFree(Run(db, es[0]), es[1..], w);
      } else {
        RunHoldsExactlyWhen(Run(db, es[0]), es[1..], w, if es[0].Wait? then left - es[0].d else left);
      }
    }
  }

  lemma NoTouchNoFree(e: Script, w: WorkerId)
    requires !Touches(e, w)
    ensures !Frees(e, w)
  {
  }

  /** After a claim of w, whatever any runners do: w stays busy for 24 hours of waiting unless some script
      frees it, and exactly that long if no script writes its HASH. */
  lemma ClaimedWorkerIsHeld(
    db: Db, candidates: seq<WorkerId>, s: CallId, at: real, w: WorkerId, es: seq<Script>)
    requires FindAndAssign(db, candidates, s, at).1 == Some(w) && s != ""
    requires forall e :: e in es ==> !Frees(e, w)
    ensures var db' := FindAndAssign(db, candidates, s, at).0;
            && (TotalWait(es) < 24 * 60 * 60 ==> Busy(RunAll(db', es), w))
            && ((forall e :: e in es ==> !Touches(e, w)) ==>
                  (Busy(RunAll(db', es), w) <==> TotalWait(es) < 24 * 60 * 60))
  {
    var db' := FindAndAssign(db, candidates, s, at).0;
    if TotalWait(es) < 24 * 60 * 60 { RunHolds(db', es, w, 24 * 60 * 60); }
    if forall e :: e in es ==> !Touches(e, w) { RunHoldsExactlyWhen(db', es, w, 24 * 60 * 60); }
  }

  // ------------------------------------------------------------------
  // Retries
  // ------------------------------------------------------------------

  /** How one attempt of _with_retry ends: the request was lost, the script ran but the reply
      was lost, or the reply arrived. */
  datatype Attempt = NotRun | ReplyLost | Replied

  /** How often the script runs: attempts stop at the first reply. */
  function Executions(attempts: seq<Attempt>): nat {
    if attempts == [] then 0
    else if attempts[0] == Replied then 1
    else (if attempts[0] == ReplyLost then 1 else 0) + Executions(attempts[1..])
  }

  /** Without an answer the script runs once per lost reply; with one, once more and never after it. */
  lemma {:induction false} ExecutionsUpToTheAnswer(a: seq<Attempt>, b: seq<Attempt>)
    requires Replied !in a
    ensures Executions(a) == multiset(a)[ReplyLost]
    ensures Executions(a + [Replied] + b) == multiset(a)[ReplyLost] + 1
  {
    var all := a + [Replied] + b;
    if a != [] {
      assert a == [a[0]] + a[1..] && all[1..] == a[1..] + [Replied] + b;
      assert a[0] in a;
      ExecutionsUpToTheAnswer(a[1..], b);
    }
  }

  function Repeat(db: Db, e: Script, n: nat): Db
    decreases n
  {
    if n == 0 then db else Repeat(Run(db, e), e, n - 1)
  }

  /** Without interference, a repeated release, clear or rename has the effect of a single one. */
  lemma {:induction false} RetryIsIdempotent(db: Db, e: Script, n: nat)
    requires !e.ClaimScript? && !e.Wait? && n > 0
    ensures Repeat(db, e, n) == Run(db, e)
    decreases n
  {
    var db1 := Run(db, e);
    if n == 1 {
      assert Repeat(db, e, 1) == Repeat(db1, e, 0);
    } else {
      var db2 := Run(db1, e);
      assert db2.hash == db1.hash && db2.calls == db1.calls;
      RetryIsIdempotent(db1, e, n - 1);
    }
  }

  /** A claim whose reply was lost and that is run again takes a second worker, exactly when a
      second candidate is free; the first one then keeps the id but lost its reverse key. */
  lemma RetriedClaimLeaksExactlyWhen(db: Db, candidates: seq<WorkerId>, s: CallId, at: real)
    requires s != "" && FirstFree(db, candidates) < |candidates|
    ensures var w := candidates[FirstFree(db, candidates)];
            var db2 := Repeat(db, ClaimScript(candidates, s, at), 2);
            && Busy(db2, w) && db2.hash[w].sid == s && s in db2.calls
            && (db2.calls[s].worker != w <==> exists w' :: w' in candidates && w' != w && !Busy(db, w'))
  {
    var w := candidates[FirstFree(db, candidates)];
    var db1 := Run(db, ClaimScript(candidates, s, at));
    var k := FirstFree(db1, candidates);
    assert Repeat(db, ClaimScript(candidates, s, at), 2) == Repeat(db1, ClaimScript(candidates, s, at), 1)
        == Run(db1, ClaimScript(candidates, s, at));
    assert forall v :: v != w ==> (Busy(db1, v) <==> Busy(db, v));
    if k < |candidates| {
      assert candidates[k] in candidates && candidates[k] != w;
    } else {
      forall w' | w' in candidates && w' != w ensures Busy(db, w') {
        var j :| 0 <= j < |candidates| && candidates[j] == w';
      }
    }
  }

  // ------------------------------------------------------------------
  // The backend, script by script
  // ------------------------------------------------------------------

  class RedisStateBackend {
    var hash: map<WorkerId, Hash>
    var calls: map<CallId, CallKey>
    var clock: nat

    ghost function View(): Db
      reads this
    {
      Db(hash, calls, clock)
    }

    constructor ()
      ensures View() == EMPTY_DB
    {
      hash, calls, clock := map[], map[], 0;
    }

    method FindAndAssignScript(candidates: seq<WorkerId>, sid: CallId, assignedAt: real)
      returns (claimed: Option<WorkerId>)
      modifies this
      ensures (View(), claimed) == FindAndAssign(old(View()), candidates, sid, assignedAt)
    {
      claimed := None;
      var i := 0;
      while i < |candidates|
        invariant 0 <= i <= |candidates|
        invariant View() == old(View())
        invariant forall j :: 0 <= j < i ==> Busy(View(), candidates[j])
      {
        var w := candidates[i];
        if w !in hash || hash[w].sid == "" {
          assert i == FirstFree(View(), candidates);
          hash := hash[w := Hash(sid, Some(assignedAt), Some(clock + KEY_TTL))];
          calls := calls[sid := CallKey(w, clock + KEY_TTL)];
          return Some(w);
        }
        i := i + 1;
      }
      assert FirstFree(View(), candidates) == |candidates|;
    }

    method ReleaseAssignmentScript(worker: WorkerId, sid: CallId)
      modifies this
      ensures View() == Release(old(View()), worker, sid)
    {
      hash := hash - {worker};
      calls := calls - {sid};
    }

    method ClearWorkerState(worker: WorkerId)
      modifies this
      ensures View() == Clear(old(View()), worker)
    {
      hash := hash - {worker};
    }

    method ReassignScript(oldSid: CallId, newSid: CallId, worker: WorkerId)
      modifies this
      ensures View() == Rename(old(View()), oldSid, newSid, worker)
    {
      calls := calls - {oldSid};
      calls := calls[newSid := CallKey(worker, clock + KEY_TTL)];
      if worker in hash {
        hash := hash[worker := hash[worker].(sid := newSid)];
      } else {
        hash := hash[worker := Hash(newSid, None, None)];
      }
    }

    method GetWorkerForCall(sid: CallId) returns (worker: Option<WorkerId>)
      ensures worker.Some? <==> sid in calls
      ensures worker.Some? ==> worker.value == calls[sid].worker
    {
      worker := if sid in calls then Some(calls[sid].worker) else None;
    }

    /** _with_retry around one of the scripts without a result: the call raises exactly when no
        attempt was answered, and the script has run Executions(attempts) times. */
    method WithRetry(e: Script, attempts: seq<Attempt>) returns (raised: bool)
      requires e.ReleaseScript? || e.RenameScript? || e.ClearScript?
      modifies this
      ensures raised <==> Replied !in attempts
      ensures View() == Repeat(old(View()), e, Executions(attempts))
    {
      ghost var before := View();
      var i := 0;
      while i < |attempts|
        invariant 0 <= i <= |attempts|
        invariant Replied !in attempts[..i]
        invariant Repeat(before, e, Executions(attempts)) == Repeat(View(), e, Executions(attempts[i..]))
      {
        assert attempts[i..][1..] == attempts[i + 1..];
        if attempts[i] != NotRun {
          match e {
            case ReleaseScript(w, s) => ReleaseAssignmentScript(w, s);
            case RenameScript(o, n, w) => ReassignScript(o, n, w);
            case ClearScript(w) => ClearWorkerState(w);
          }
        }
        if attempts[i] == Replied {
          return false;
        }
        i := i + 1;
      }
      return true;
    }
  }
}
