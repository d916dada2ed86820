/** The health readers of all runners against one worker process, with clocks.

    Each runner keeps its own record of the worker and probes it on its own.  A probe is sent, read by
    the worker and applied by its runner at three different times; a runner that decides to free hands
    the id it has cached to the release script, which compares nothing and runs later.  Claims, renames,
    releases, the websocket and the end of the call fall anywhere in between.

    The question is whether a health reader can free a call that is still going on: in Redis mode the
    worker's HASH, in single-process mode the record of the only runner. */
module HealthSafety {
  import opened Options
  import opened RedisState
  import opened WorkerPool
  import opened WorkerSide

  datatype Reading = Reading(at: real, current: Option<CallId>)
  datatype InFlight = InFlight(runner: nat, sentAt: real, read: Option<Reading>)

  /** History of the current assignment: claimed but not yet reported by the worker, reported, or over
      (released by its call's own release, or ended or cancelled on the worker). */
  datatype Phase = Waiting | Reporting | Over

  /** `releases` are the release tasks under way, by the probe that started them; `since` is the time of
      the claim. */
  datatype Fleet = Fleet(
    clock: real, worker: WorkerId, db: Db, recs: map<nat, Rec>, app: App,
    probes: map<nat, InFlight>, releases: map<nat, CallId>, phase: Phase, since: real)

  datatype Event =
    | Advance(d: real)
    | ClaimFor(sid: CallId)                 // the claiming script
    | CacheClaim(r: nat, sid: CallId)       // a runner records a claim
    | RenameHash(prior: CallId, next: CallId)
    | CacheRename(r: nat, sid: CallId)      // a runner records a rename
    | EndBy(sid: CallId)                    // the call's own release script
    | CacheRelease(r: nat)                  // a runner records a release, or starts anew
    | SendProbe(r: nat, p: nat)
    | ReadProbe(p: nat)
    | ApplyProbe(p: nat)
    | LoseProbe(p: nat)
    | RunRelease(p: nat, answered: bool)    // not answered: it will run once more
    | LoseRelease(p: nat)
    | WorkerActs(a: Act)
    | Reported                              // from now on the worker reports the claimed call

  /** The two timing assumptions: a probe takes at most `trip` from sending to application, and the
      worker reports a claimed call at most `delay` after the claim. */
  datatype Bounds = Bounds(trip: real, delay: real)

  predicate Live(f: Fleet) {
    f.phase != Over
  }

  /** A runner that records a rename has recorded the assignment. */
  predicate Possible(f: Fleet, e: Event, b: Bounds) {
    match e
    case Advance(x) => x >= 0.0 && (f.phase == Waiting ==> f.clock + x <= f.since + b.delay)
    case ClaimFor(s) => s != "" && !Busy(f.db, f.worker)
    case CacheClaim(r, _) => r in f.recs
    case RenameHash(_, n) => n != ""
    case CacheRename(r, _) => r in f.recs && f.recs[r].sid.Some?
    case EndBy(_) => true
    case CacheRelease(r) => r in f.recs
    case SendProbe(r, p) => r in f.recs && p !in f.probes && p !in f.releases
    case ReadProbe(p) => p in f.probes && f.probes[p].read == None
    case ApplyProbe(p) =>
      p in f.probes && f.probes[p].read.Some? && f.probes[p].runner in f.recs && f.clock <= f.probes[p].sentAt + b.trip
    case LoseProbe(p) => p in f.probes
    case RunRelease(p, _) => p in f.releases
    case LoseRelease(p) => p in f.releases
    case WorkerActs(_) => true
    case Reported => f.phase == Waiting && f.app.current.Some?
  }

  function Seen(q: InFlight): Probe
    requires q.read.Some?
  {
    Answered(Some(q.read.value.current))
  }

  function WithRec(f: Fleet, r: nat, c: Rec): Fleet {
    f.(recs := f.recs[r := c])
  }

  function Happen(f: Fleet, e: Event, b: Bounds): Fleet
    requires Possible(f, e, b)
  {
    match e
    case Advance(x) => f.(clock := f.clock + x)
    case ClaimFor(s) => f.(db := Assign(f.db, f.worker, s, f.clock), phase := Waiting, since := f.clock)
    case CacheClaim(r, s) => WithRec(f, r, f.recs[r].(sid := Some(s), assignedAt := Some(f.clock)))
    case RenameHash(o, n) => f.(db := Rename(f.db, o, n, f.worker))
    case CacheRename(r, s) => WithRec(f, r, f.recs[r].(sid := Some(s)))
    case EndBy(s) => f.(db := Release(f.db, f.worker, s), phase := Over)
    case CacheRelease(r) => WithRec(f, r, f.recs[r].(sid := None, assignedAt := None))
    case SendProbe(r, p) => f.(probes := f.probes[p := InFlight(r, f.clock, None)])
    case ReadProbe(p) => f.(probes := f.probes[p := f.probes[p].(read := Some(Reading(f.clock, f.app.current)))])
    case ApplyProbe(p) =>
      var r := f.probes[p].runner;
      var c, seen := f.recs[r], Seen(f.probes[p]);
      WithRec(f, r, AfterProbe(c, seen, f.clock)).(
        probes := f.probes - {p},
        releases := if FreesStale(c, seen, f.clock) then f.releases[p := c.sid.value] else f.releases)
    case LoseProbe(p) => f.(probes := f.probes - {p})
    case RunRelease(p, answered) =>
      f.(db := Release(f.db, f.worker, f.releases[p]), releases := if answered then f.releases - {p} else f.releases)
    case LoseRelease(p) => f.(releases := f.releases - {p})
    case WorkerActs(a) =>
      var app' := Do(f.app, a);
      f.(app := app', phase := if f.phase == Reporting && app'.current == None then Over else f.phase)
    case Reported => f.(phase := Reporting)
  }

  predicate Feasible(f: Fleet, es: seq<Event>, b: Bounds)
    decreases |es|
  {
    es == [] || (Possible(f, es[0], b) && Feasible(Happen(f, es[0], b), es[1..], b))
  }

  function After(f: Fleet, es: seq<Event>, b: Bounds): Fleet
    requires Feasible(f, es, b)
    decreases |es|
  {
    if es == [] then f else After(Happen(f, es[0], b), es[1..], b)
  }

  // ------------------------------------------------------------------
  // Bookkeeping that every run keeps
  // ------------------------------------------------------------------

  /** A null snapshot under way was read before the worker had to report. */
  predicate SaneProbe(f: Fleet, q: InFlight, b: Bounds) {
    && q.sentAt <= f.clock
    && (q.read.Some? ==>
          && q.sentAt <= q.read.value.at <= f.clock
          && (q.read.value.current == None && Live(f) ==> q.read.value.at <= f.since + b.delay))
  }

  predicate Sane(f: Fleet, b: Bounds) {
    && f.since <= f.clock
    && (f.phase == Waiting ==> f.clock <= f.since + b.delay)
    && (f.phase == Reporting ==> f.app.current.Some?)
    && forall p :: p in f.probes ==> SaneProbe(f, f.probes[p], b)
  }

  lemma EventKeepsSane(f: Fleet, e: Event, b: Bounds)
    requires 0.0 <= b.delay && Sane(f, b) && Possible(f, e, b)
    ensures Sane(Happen(f, e, b), b)
  {
    hide AfterProbe, FreesStale, Assign, Rename, Release, Do;
    var f' := Happen(f, e, b);
    forall p | p in f'.probes ensures SaneProbe(f', f'.probes[p], b) {
      if p in f.probes { assert SaneProbe(f, f.probes[p], b); }
    }
  }

  // ------------------------------------------------------------------
  // The guard
  // ------------------------------------------------------------------

  /** The record protects the assignment: it shows no call, or it is so recent that no null snapshot taken
      before the worker must report can reach it after its grace. */
  predicate Protects(c: Rec, since: real, b: Bounds) {
    c.sid.Some? ==> c.assignedAt.Some? && since + b.delay + b.trip <= c.assignedAt.value + GRACE
  }

  /** What the runners hold for the worker when a call is live on it: no release under way, and only
      protecting records. */
  predicate Guarded(f: Fleet, b: Bounds) {
    && b.trip + b.delay <= GRACE
    && f.releases == map[]
    && forall r :: r in f.recs ==> Protects(f.recs[r], f.since, b)
  }

  predicate Kept(f: Fleet, b: Bounds) {
    Live(f) ==> Guarded(f, b) && Busy(f.db, f.worker)
  }

  lemma AppliedProbeFreesNothing(f: Fleet, p: nat, b: Bounds)
    requires Sane(f, b) && Live(f) && Guarded(f, b) && Possible(f, ApplyProbe(p), b)
    ensures var q := f.probes[p]; var c := f.recs[q.runner];
            && !FreesStale(c, Seen(q), f.clock)
            && Protects(AfterProbe(c, Seen(q), f.clock), f.since, b)
            && (AfterProbe(c, Seen(q), f.clock).sid.Some? <==> c.sid.Some?)
  {
    var q := f.probes[p];
    assert SaneProbe(f, q, b) && Protects(f.recs[q.runner], f.since, b);
  }

  /** No step of any runner or of the worker frees a guarded assignment or loses its guard; a new call can
      be claimed only when the last one is over. */
  lemma EventKeepsGuard(f: Fleet, e: Event, b: Bounds)
    requires Sane(f, b) && Live(f) && Guarded(f, b) && Busy(f.db, f.worker) && Possible(f, e, b)
    ensures !e.ClaimFor? && Kept(Happen(f, e, b), b)
    ensures !e.RunRelease? && forall r :: r in f.recs && e != CacheRelease(r) && f.recs[r].sid.Some? ==>
              Happen(f, e, b).recs[r].sid.Some?
  {
    hide AfterProbe, FreesStale, Do;
    if e.ApplyProbe? { AppliedProbeFreesNothing(f, e.p, b); }
    var f' := Happen(f, e, b);
    if Live(f') {
      forall r | r in f'.recs ensures Protects(f'.recs[r], f'.since, b) {
        if r in f.recs { assert Protects(f.recs[r], f.since, b); }
      }
    }
  }

  // ------------------------------------------------------------------
  // Redis mode: exactly when no health reader frees the call
  // ------------------------------------------------------------------

  predicate NoClaim(es: seq<Event>) {
    forall i :: 0 <= i < |es| ==> !es[i].ClaimFor?
  }

  /** In every run until the next claim, the call keeps its worker until it is over. */
  ghost predicate NeverFreed(f: Fleet, b: Bounds) {
    forall es: seq<Event> :: NoClaim(es) && Feasible(f, es, b) && Live(After(f, es, b)) ==>
      Busy(After(f, es, b).db, f.worker)
  }

  lemma {:induction false} GuardedRunsKeepTheCall(f: Fleet, es: seq<Event>, b: Bounds)
    requires 0.0 <= b.delay && Sane(f, b) && Kept(f, b) && NoClaim(es) && Feasible(f, es, b)
    ensures Kept(After(f, es, b), b) && After(f, es, b).worker == f.worker
    decreases |es|
  {
    hide Sane, Guarded, Possible;
    if es != [] {
      var f' := Happen(f, es[0], b);
      EventKeepsSane(f, es[0], b);
      if Live(f) {
        EventKeepsGuard(f, es[0], b);
      } else {
        OverStaysOver(f, es[0], b);
      }
      GuardedRunsKeepTheCall(f', es[1..], b);
    }
  }

  lemma OverStaysOver(f: Fleet, e: Event, b: Bounds)
    requires !Live(f) && !e.ClaimFor? && Possible(f, e, b)
    ensures !Live(Happen(f, e, b))
  {
  }

  /** A call that was just claimed keeps its worker, whatever all runners and the worker do from there,
      exactly when the grace covers reporting delay and probe trip together, no release of the worker is
      under way, and every runner's record of it shows no call or a recent enough assignment. */
  lemma NeverFreedExactlyWhen(f: Fleet, b: Bounds)
    requires 0.0 <= b.trip && 0.0 <= b.delay && Sane(f, b) && f.recs != map[]
    requires f.phase == Waiting && f.clock == f.since && Busy(f.db, f.worker)
    ensures NeverFreed(f, b) <==> Guarded(f, b)
  {
    if Guarded(f, b) {
      forall es: seq<Event> | NoClaim(es) && Feasible(f, es, b) && Live(After(f, es, b))
        ensures Busy(After(f, es, b).db, f.worker)
      {
        GuardedRunsKeepTheCall(f, es, b);
      }
    } else if p :| p in f.releases {
      PendingReleaseFrees(f, p, b);
    } else if r :| r in f.recs && !Protects(f.recs[r], f.since, b) {
      StaleRecordFrees(f, r, b);
    } else {
      var r :| r in f.recs;
      LongTripFrees(f, r, b);
    }
  }

  /** Over every run with any number of calls: if each claim finds the worker guarded, no health reader
      ever frees a live call.  NeverFreedExactlyWhen says that each of these conditions is needed. */
  lemma {:induction false} GuardedClaimsAreSafe(f: Fleet, es: seq<Event>, b: Bounds)
    requires 0.0 <= b.delay && Sane(f, b) && Kept(f, b) && Feasible(f, es, b) && ClaimsGuarded(f, es, b)
    ensures Kept(After(f, es, b), b)
    decreases |es|
  {
    hide Sane, Guarded, Possible;
    if es != [] {
      EventKeepsSane(f, es[0], b);
      if Live(f) {
        EventKeepsGuard(f, es[0], b);
      } else if es[0].ClaimFor? {
        ClaimedIsBusy(f, es[0], b);
      } else {
        OverStaysOver(f, es[0], b);
      }
      GuardedClaimsAreSafe(Happen(f, es[0], b), es[1..], b);
    }
  }

  predicate ClaimsGuarded(f: Fleet, es: seq<Event>, b: Bounds)
    requires Feasible(f, es, b)
    decreases |es|
  {
    es == [] ||
    (&& (es[0].ClaimFor? ==> Guarded(Happen(f, es[0], b), b))
     && ClaimsGuarded(Happen(f, es[0], b), es[1..], b))
  }

  lemma ClaimedIsBusy(f: Fleet, e: Event, b: Bounds)
    requires e.ClaimFor? && Possible(f, e, b)
    ensures var f' := Happen(f, e, b); Busy(f'.db, f'.worker) && f'.phase == Waiting && f'.clock == f'.since
  {
  }

  /** Recording a rename keeps the guard exactly on a runner that has recorded the assignment: elsewhere
      the record gets no time, hence no grace. */
  lemma RenameKeepsGuardExactlyWhen(f: Fleet, r: nat, s: CallId, b: Bounds)
    requires Guarded(f, b) && r in f.recs && (f.recs[r].sid == None ==> f.recs[r].assignedAt == None)
    ensures Guarded(WithRec(f, r, f.recs[r].(sid := Some(s))), b) <==> f.recs[r].sid.Some?
  {
    var f' := WithRec(f, r, f.recs[r].(sid := Some(s)));
    assert Protects(f.recs[r], f.since, b);
    if f.recs[r].sid == None {
      assert !Protects(f'.recs[r], f'.since, b);
    } else {
      forall q | q in f'.recs ensures Protects(f'.recs[q], f'.since, b) { assert Protects(f.recs[q], f.since, b); }
    }
  }

  /** The reporting deadline is met by the worker machine itself: on an idle worker the seed of the
      prewarm or the start of the call makes it report, and it keeps reporting through any acts that spare
      its id. */
  lemma SeededWorkerReports(f: Fleet, s: CallId, acts: seq<Act>, first: Act, b: Bounds)
    requires f.phase == Waiting && f.app.current == None
    requires first == SeedCas(s) || first == StartCall(s)
    requires forall i :: 0 <= i < |acts| ==> Spares(acts[i], s)
    ensures Possible(Happen(f, WorkerActs(first), b), Reported, b)
    ensures DoAll(Do(f.app, first), acts).current == Some(s)
  {
    StaysOnCall(Do(f.app, first), acts, s);
  }

  /** Within grace of the true assignment, a null snapshot frees the record exactly when `assignedAt` is
      missing, as it is on a runner that renamed a call another runner had assigned. */
  lemma GraceNeedsAssignedAt(r: Rec, since: real, now: real)
    requires r.sid.Some? && (r.assignedAt == None || r.assignedAt == Some(since)) && now - since <= GRACE
    ensures AfterProbe(r, Answered(Some(None)), now).sid == None <==> r.assignedAt == None
  {
  }

  // ------------------------------------------------------------------
  // Single-process mode
  // ------------------------------------------------------------------

  /** In every run until the call is released or a new one claimed, the runner shows the call. */
  ghost predicate NeverForgotten(f: Fleet, r: nat, b: Bounds)
    requires r in f.recs
  {
    forall es: seq<Event> ::
      NoClaim(es) && CacheRelease(r) !in es && Feasible(f, es, b) && Live(After(f, es, b)) ==>
      r in After(f, es, b).recs && After(f, es, b).recs[r].sid.Some?
  }

  lemma {:induction false} GuardedRunsKeepTheRecord(f: Fleet, r: nat, es: seq<Event>, b: Bounds)
    requires 0.0 <= b.delay && Sane(f, b) && Kept(f, b) && NoClaim(es) && CacheRelease(r) !in es
    requires Feasible(f, es, b) && (Live(f) ==> r in f.recs && f.recs[r].sid.Some?)
    ensures var f' := After(f, es, b); Live(f') ==> r in f'.recs && f'.recs[r].sid.Some?
    decreases |es|
  {
    hide Sane, Guarded, Possible;
    if es != [] {
      EventKeepsSane(f, es[0], b);
      if Live(f) {
        EventKeepsGuard(f, es[0], b);
        RecordsRemain(f, es[0], b);
      } else {
        OverStaysOver(f, es[0], b);
      }
      GuardedRunsKeepTheRecord(Happen(f, es[0], b), r, es[1..], b);
    }
  }

  lemma RecordsRemain(f: Fleet, e: Event, b: Bounds)
    requires Possible(f, e, b)
    ensures f.recs.Keys <= Happen(f, e, b).recs.Keys
  {
  }

  /** With one runner, which records the assignment in the step that makes it (the HASH then stands for that
      record): no probe frees the call exactly when the grace covers reporting delay and probe trip together. */
  lemma SingleRunnerIsSafeExactlyWhen(f: Fleet, r: nat, b: Bounds)
    requires 0.0 <= b.trip && 0.0 <= b.delay && Sane(f, b) && f.recs.Keys == {r} && f.releases == map[]
    requires f.phase == Waiting && f.clock == f.since && Busy(f.db, f.worker)
    requires f.recs[r].sid.Some? && f.recs[r].assignedAt == Some(f.since)
    ensures NeverForgotten(f, r, b) <==> b.trip + b.delay <= GRACE
  {
    if b.trip + b.delay <= GRACE {
      assert Guarded(f, b);
      forall es: seq<Event> | NoClaim(es) && CacheRelease(r) !in es && Feasible(f, es, b) && Live(After(f, es, b))
        ensures r in After(f, es, b).recs && After(f, es, b).recs[r].sid.Some?
      {
        GuardedRunsKeepTheRecord(f, r, es, b);
      }
    } else {
      var p := FreshNumber(f.probes.Keys + f.releases.Keys);
      LateNullRuns(f, r, p, b);
      LateNull(f, r, p, [], b);
      assert LateRun(r, p, b) + [] == LateRun(r, p, b);
    }
  }

  // ------------------------------------------------------------------
  // The runs that free a live call
  // ------------------------------------------------------------------

  lemma OneMore(f: Fleet, es: seq<Event>, b: Bounds)
    requires es != [] && Possible(f, es[0], b)
    ensures Feasible(f, es, b) <==> Feasible(Happen(f, es[0], b), es[1..], b)
    ensures Feasible(f, es, b) ==> After(f, es, b) == After(Happen(f, es[0], b), es[1..], b)
  {
  }

  lemma {:induction false} FreshNumber(ns: set<nat>) returns (p: nat)
    ensures forall n :: n in ns ==> n < p
  {
    if ns == {} {
      p := 0;
    } else {
      var n :| n in ns;
      var q := FreshNumber(ns - {n});
      p := if q > n then q else n + 1;
      forall m | m in ns ensures m < p {
        if m != n { assert m in ns - {n}; }
      }
    }
  }

  /** A release task that was started for an earlier call runs. */
  lemma PendingReleaseFrees(f: Fleet, p: nat, b: Bounds)
    requires Live(f) && p in f.releases
    ensures !NeverFreed(f, b)
  {
    var es := [RunRelease(p, true)];
    OneMore(f, es, b);
    assert es[1..] == [];
    assert NoClaim(es) && !Busy(After(f, es, b).db, f.worker);
  }

  /** Runner r probes at the reporting deadline and reads null. */
  function NullRead(r: nat, p: nat, b: Bounds): seq<Event> {
    [WorkerActs(EndCall), Advance(b.delay), SendProbe(r, p), ReadProbe(p)]
  }

  /** Just then the worker starts the call; the snapshot is applied as late as allowed. */
  function AppliedLate(p: nat, b: Bounds): seq<Event> {
    [WorkerActs(StartCall("s")), Reported, Advance(b.trip), ApplyProbe(p)]
  }

  function LateRun(r: nat, p: nat, b: Bounds): seq<Event> {
    NullRead(r, p, b) + AppliedLate(p, b)
  }

  /** The states after the first half, and before the snapshot is applied. */
  function NullAtDeadline(f: Fleet, r: nat, p: nat, b: Bounds): Fleet {
    var read := f.clock + b.delay;
    f.(clock := read, app := Do(f.app, EndCall), probes := f.probes[p := InFlight(r, read, Some(Reading(read, None)))])
  }

  function NullUnderWay(f: Fleet, r: nat, p: nat, b: Bounds): Fleet {
    var g := NullAtDeadline(f, r, p, b);
    g.(clock := g.clock + b.trip, app := Do(g.app, StartCall("s")), phase := Reporting)
  }

  lemma FourMore(f: Fleet, es: seq<Event>, tail: seq<Event>, b: Bounds)
    requires |es| == 4 && Possible(f, es[0], b)
    requires var f1 := Happen(f, es[0], b);
             Possible(f1, es[1], b) && var f2 := Happen(f1, es[1], b);
             Possible(f2, es[2], b) && var f3 := Happen(f2, es[2], b);
             Possible(f3, es[3], b)
    ensures var g := Happen(Happen(Happen(Happen(f, es[0], b), es[1], b), es[2], b), es[3], b);
            && (Feasible(f, es + tail, b) <==> Feasible(g, tail, b))
            && (Feasible(f, es + tail, b) ==> After(f, es + tail, b) == After(g, tail, b))
  {
    hide Possible, Happen, Feasible, After;
    var all := es + tail;
    var f1 := Happen(f, es[0], b);
    var f2 := Happen(f1, es[1], b);
    var f3 := Happen(f2, es[2], b);
    OneMore(f, all, b);
    OneMore(f1, all[1..], b);
    OneMore(f2, all[2..], b);
    OneMore(f3, all[3..], b);
    assert all[1..][1..] == all[2..] && all[2..][1..] == all[3..] && all[3..][1..] == tail;
  }

  lemma NullReadRuns(f: Fleet, r: nat, p: nat, tail: seq<Event>, b: Bounds)
    requires 0.0 <= b.delay && f.phase == Waiting && f.clock == f.since
    requires r in f.recs && p !in f.probes && p !in f.releases
    ensures var g := NullAtDeadline(f, r, p, b); var es := NullRead(r, p, b) + tail;
            && (Feasible(f, es, b) <==> Feasible(g, tail, b))
            && (Feasible(f, es, b) ==> After(f, es, b) == After(g, tail, b))
  {
    hide Feasible, After, Do;
    var es := NullRead(r, p, b);
    var f3 := Happen(Happen(Happen(f, es[0], b), es[1], b), es[2], b);
    assert Happen(f3, es[3], b).probes == NullAtDeadline(f, r, p, b).probes by { DoEnd(f.app); }
    assert Happen(f3, es[3], b) == NullAtDeadline(f, r, p, b);
    FourMore(f, es, tail, b);
  }

  lemma DoEnd(app: App)
    ensures Do(app, EndCall).current == None && Do(Do(app, EndCall), StartCall("s")).current == Some("s")
  {
  }

  lemma AppliedLateRuns(f: Fleet, r: nat, p: nat, tail: seq<Event>, b: Bounds)
    requires 0.0 <= b.trip && f.phase == Waiting && r in f.recs
    ensures var g0, g := NullAtDeadline(f, r, p, b), NullUnderWay(f, r, p, b); var es := AppliedLate(p, b) + tail;
            && Possible(g, ApplyProbe(p), b)
            && (Feasible(g0, es, b) <==> Feasible(Happen(g, ApplyProbe(p), b), tail, b))
            && (Feasible(g0, es, b) ==> After(g0, es, b) == After(Happen(g, ApplyProbe(p), b), tail, b))
  {
    hide Feasible, After, Do;
    var g0, es := NullAtDeadline(f, r, p, b), AppliedLate(p, b);
    DoEnd(f.app);
    assert Happen(Happen(Happen(g0, es[0], b), es[1], b), es[2], b) == NullUnderWay(f, r, p, b);
    FourMore(g0, es, tail, b);
  }

  lemma LateNull(f: Fleet, r: nat, p: nat, tail: seq<Event>, b: Bounds)
    requires 0.0 <= b.trip && 0.0 <= b.delay && f.phase == Waiting && f.clock == f.since
    requires r in f.recs && p !in f.probes && p !in f.releases
    ensures var g := NullUnderWay(f, r, p, b); var es := LateRun(r, p, b) + tail;
            && Possible(g, ApplyProbe(p), b)
            && (Feasible(f, es, b) <==> Feasible(Happen(g, ApplyProbe(p), b), tail, b))
            && (Feasible(f, es, b) ==> After(f, es, b) == After(Happen(g, ApplyProbe(p), b), tail, b))
  {
    hide Feasible, After, Possible, Happen, NullAtDeadline, NullUnderWay, NullRead, AppliedLate;
    NullReadRuns(f, r, p, AppliedLate(p, b) + tail, b);
    AppliedLateRuns(f, r, p, tail, b);
    assert LateRun(r, p, b) + tail == NullRead(r, p, b) + (AppliedLate(p, b) + tail);
  }

  /** That run frees the record when the record does not protect the assignment. */
  lemma LateNullRuns(f: Fleet, r: nat, p: nat, b: Bounds)
    requires 0.0 <= b.trip && 0.0 <= b.delay && f.phase == Waiting && f.clock == f.since
    requires r in f.recs && p !in f.probes && p !in f.releases && !Protects(f.recs[r], f.since, b)
    ensures var g := Happen(NullUnderWay(f, r, p, b), ApplyProbe(p), b);
            p in g.releases && g.recs[r].sid == None && g.phase == Reporting && g.worker == f.worker
    ensures NoClaim(LateRun(r, p, b)) && CacheRelease(r) !in LateRun(r, p, b)
  {
  }

  /** A runner whose record shows an older call, or no assignment time, frees the new call: it reads null
      before the worker reports, finds its own grace over, and releases the id it has cached. */
  lemma StaleRecordFrees(f: Fleet, r: nat, b: Bounds)
    requires 0.0 <= b.trip && 0.0 <= b.delay && f.phase == Waiting && f.clock == f.since
    requires r in f.recs && !Protects(f.recs[r], f.since, b)
    ensures !NeverFreed(f, b)
  {
    var p := FreshNumber(f.probes.Keys + f.releases.Keys);
    LateNullRuns(f, r, p, b);
    var g, tail := Happen(NullUnderWay(f, r, p, b), ApplyProbe(p), b), [RunRelease(p, true)];
    LateNull(f, r, p, tail, b);
    OneMore(g, tail, b);
    assert tail[1..] == [];
    var es := LateRun(r, p, b) + tail;
    assert Feasible(f, es, b) && After(f, es, b) == Happen(g, tail[0], b);
    assert NoClaim(es) && Live(After(f, es, b)) && !Busy(After(f, es, b).db, f.worker);
  }

  /** When delay and trip exceed the grace, even a record made at the claim does not protect the call. */
  lemma LongTripFrees(f: Fleet, r: nat, b: Bounds)
    requires 0.0 <= b.trip && 0.0 <= b.delay && f.phase == Waiting && f.clock == f.since
    requires r in f.recs && b.trip + b.delay > GRACE
    ensures !NeverFreed(f, b)
  {
    var e := CacheClaim(r, "s");
    var f' := Happen(f, e, b);
    StaleRecordFrees(f', r, b);
    var es: seq<Event> :| NoClaim(es) && Feasible(f', es, b) && Live(After(f', es, b))
      && !Busy(After(f', es, b).db, f.worker);
    var all := [e] + es;
    assert all[1..] == es;
    OneMore(f, all, b);
    assert NoClaim(all) && Feasible(f, all, b) && Live(After(f, all, b)) && !Busy(After(f, all, b).db, f.worker);
  }
}
