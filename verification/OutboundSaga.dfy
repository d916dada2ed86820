/** Placing an outbound call (app/routes/calls.py, initiate_outbound_call): reserve a worker under a
    reservation id, dial, rename the reservation to the provider's call id, and release it if
    anything raises.  The route awaits between its pool calls, so other calls act in between. */
module OutboundSaga {
  import opened Options
  import opened RedisState
  import opened WorkerPool

  datatype Stage =
    | Begun                     // nothing reserved yet
    | Reserved
    | DialledTo(sid: CallId)    // the provider accepted the call; the rename is still to come
    | Renamed(sid: CallId)
    | Raised(dialled: Option<CallId>)   // an exception is on its way; the release is still to come
    | Responded(sid: CallId)    // exits
    | NoCapacity
    | Aborted(dialled: Option<CallId>)
    | Cancelled(at: Stage)      // the request is cancelled; no handler releases anything

  datatype Saga = Saga(ws: seq<Rec>, stage: Stage)

  datatype Move =
    | Reserve(now: real)
    | Dial(sid: CallId)
    | Raise                                   // prewarm, dialling or building the response fails
    | RenameReservation
    | Respond
    | CleanUp
    | CancelRequest
    // other requests
    | OtherAssign(sid: CallId, now: real)
    | OtherRelease(sid: CallId)
    | OtherReassign(prior: CallId, next: CallId)
    | OtherHealth(k: nat, probe: Probe, now: real)
    | Discovered(r: Rec)

  predicate NotHeld(ws: seq<Rec>, s: CallId) {
    forall j :: 0 <= j < |ws| ==> ws[j].sid != Some(s)
  }

  /** Worker k, and no other, holds s. */
  predicate HeldBy(ws: seq<Rec>, s: CallId, k: nat) {
    k < |ws| && forall j :: 0 <= j < |ws| ==> (ws[j].sid == Some(s) <==> j == k)
  }

  /** The provider's id once it is known to the route. */
  function Known(st: Stage): Option<CallId> {
    match st
    case DialledTo(s) => Some(s)
    case Renamed(s) => Some(s)
    case Responded(s) => Some(s)
    case Raised(d) => d
    case Aborted(d) => d
    case Cancelled(at) => Known(at)
    case _ => None
  }

  predicate Foreign(g: Saga, callId: CallId, s: CallId) {
    s != callId && Known(g.stage) != Some(s)
  }

  /** What may happen.  The provider's id is new; other requests use other ids, except that a
      terminal callback for the provider's id may come before the rename; health probes may free or rename
      any worker but the route's own. */
  predicate May(g: Saga, callId: CallId, m: Move) {
    match m
    case Reserve(_) => g.stage == Begun
    case Dial(s) => g.stage == Reserved && s != callId && NotHeld(g.ws, s)
    case Raise => g.stage.Reserved? || g.stage.Renamed?
    case RenameReservation => g.stage.DialledTo?
    case Respond => g.stage.Renamed?
    case CleanUp => g.stage.Raised?
    case CancelRequest => g.stage.Reserved? || g.stage.DialledTo? || g.stage.Renamed? || g.stage.Raised?
    case OtherAssign(s, _) => Foreign(g, callId, s)
    case OtherRelease(s) => Foreign(g, callId, s) || g.stage == DialledTo(s) || g.stage == Cancelled(DialledTo(s))
    case OtherReassign(o, n) => Foreign(g, callId, o) && Foreign(g, callId, n)
    case OtherHealth(k, p, now) =>
      k < |g.ws| &&
      var before, after := g.ws[k].sid, AfterProbe(g.ws[k], p, now).sid;
      before == after || (before.Some? && Foreign(g, callId, before.value)
                          && (after.Some? ==> Foreign(g, callId, after.value)))
    case Discovered(r) => r.sid == None
  }

  function Go(g: Saga, callId: CallId, m: Move): Saga
    requires May(g, callId, m)
  {
    match m
    case Reserve(now) => Saga(Assigned(g.ws, callId, now), if AssignedTo(g.ws) == None then NoCapacity else Reserved)
    case Dial(s) => g.(stage := DialledTo(s))
    case Raise => g.(stage := Raised(Known(g.stage)))
    case RenameReservation => Saga(Reassigned(g.ws, callId, g.stage.sid), Renamed(g.stage.sid))
    case Respond => g.(stage := Responded(g.stage.sid))
    case CleanUp => Saga(Released(g.ws, callId), Aborted(g.stage.dialled))
    case CancelRequest => g.(stage := Cancelled(g.stage))
    case OtherAssign(s, now) => g.(ws := Assigned(g.ws, s, now))
    case OtherRelease(s) => g.(ws := Released(g.ws, s))
    case OtherReassign(o, n) => g.(ws := Reassigned(g.ws, o, n))
    case OtherHealth(k, p, now) => g.(ws := g.ws[k := AfterProbe(g.ws[k], p, now)])
    case Discovered(r) => g.(ws := g.ws + [r])
  }

  /** Who holds what at each stage. */
  ghost predicate Consistent(g: Saga, callId: CallId) {
    HoldsAt(g.ws, g.stage, callId)
  }

  ghost predicate HoldsAt(ws: seq<Rec>, st: Stage, callId: CallId) {
    match st
    case Begun => NotHeld(ws, callId)
    case NoCapacity => NotHeld(ws, callId)
    case Reserved => exists k :: HeldBy(ws, callId, k)
    case DialledTo(s) => s != callId && NotHeld(ws, s) && exists k :: HeldBy(ws, callId, k)
    case Renamed(s) => s != callId && NotHeld(ws, callId) && exists k :: HeldBy(ws, s, k)
    case Responded(s) => s != callId && NotHeld(ws, callId) && exists k :: HeldBy(ws, s, k)
    case Raised(None) => exists k :: HeldBy(ws, callId, k)
    case Raised(Some(s)) => s != callId && NotHeld(ws, callId) && exists k :: HeldBy(ws, s, k)
    case Aborted(None) => NotHeld(ws, callId)
    case Aborted(Some(s)) => s != callId && NotHeld(ws, callId) && exists k :: HeldBy(ws, s, k)
    case Cancelled(at) => HoldsAt(ws, at, callId)
  }

  lemma NotBoth(ws: seq<Rec>, s: CallId, k: nat)
    requires HeldBy(ws, s, k)
    ensures !NotHeld(ws, s)
  {
    assert ws[k].sid == Some(s);
  }

  // ---- How the pool operations move a held id ----

  lemma ForeignMovesKeepHolder(g: Saga, callId: CallId, m: Move, s: CallId, k: nat)
    requires May(g, callId, m) && HeldBy(g.ws, s, k)
    requires s == callId || Known(g.stage) == Some(s)
    requires m.OtherAssign? || m.OtherRelease? || m.OtherReassign? || m.OtherHealth? || m.Discovered?
    requires m == OtherRelease(s) ==> g.stage != DialledTo(s) && g.stage != Cancelled(DialledTo(s))
    ensures HeldBy(Go(g, callId, m).ws, s, k)
  {
  }

  lemma ForeignMovesKeepNotHeld(g: Saga, callId: CallId, m: Move, s: CallId)
    requires May(g, callId, m) && NotHeld(g.ws, s)
    requires s == callId || Known(g.stage) == Some(s)
    requires m.OtherAssign? || m.OtherRelease? || m.OtherReassign? || m.OtherHealth? || m.Discovered?
    ensures NotHeld(Go(g, callId, m).ws, s)
  {
  }

  lemma ReserveHolds(ws: seq<Rec>, s: CallId, now: real)
    requires NotHeld(ws, s)
    ensures if AssignedTo(ws) == None then NotHeld(Assigned(ws, s, now), s)
            else HeldBy(Assigned(ws, s, now), s, FirstAccepting(ws))
  {
  }

  lemma ReserveKeepsNotHeld(ws: seq<Rec>, s: CallId, now: real)
    ensures AssignedTo(ws) == None ==> Assigned(ws, s, now) == ws
    ensures forall t :: t != s && NotHeld(ws, t) ==> NotHeld(Assigned(ws, s, now), t)
  {
  }

  lemma HolderIs(ws: seq<Rec>, s: CallId, k: nat)
    requires HeldBy(ws, s, k)
    ensures Holder(ws, s) == k
  {
    assert ws[k].sid == Some(s);
  }

  lemma RenameMoves(ws: seq<Rec>, o: CallId, n: CallId, k: nat)
    requires HeldBy(ws, o, k) && NotHeld(ws, n) && o != n
    ensures HeldBy(Reassigned(ws, o, n), n, k) && NotHeld(Reassigned(ws, o, n), o)
  {
    HolderIs(ws, o, k);
  }

  lemma ReleaseFrees(ws: seq<Rec>, s: CallId)
    requires NotHeld(ws, s) || exists k :: HeldBy(ws, s, k)
    ensures NotHeld(Released(ws, s), s)
  {
    if k :| HeldBy(ws, s, k) { HolderIs(ws, s, k); }
  }

  lemma ReleaseKeepsOther(ws: seq<Rec>, s: CallId, t: CallId, k: nat)
    requires s != t && HeldBy(ws, t, k)
    ensures HeldBy(Released(ws, s), t, k)
  {
  }

  lemma MoveKeepsConsistent(g: Saga, callId: CallId, m: Move)
    requires Consistent(g, callId) && May(g, callId, m)
    ensures Consistent(Go(g, callId, m), callId)
  {
    var g' := Go(g, callId, m);
    match m
    case Reserve(now) => ReserveHolds(g.ws, callId, now);
    case RenameReservation =>
      var k :| HeldBy(g.ws, callId, k);
      RenameMoves(g.ws, callId, g.stage.sid, k);
    case CleanUp =>
      ReleaseFrees(g.ws, callId);
      if g.stage.dialled.Some? {
        var k :| HeldBy(g.ws, g.stage.dialled.value, k);
        ReleaseKeepsOther(g.ws, callId, g.stage.dialled.value, k);
      }
    case Dial(_) =>
    case Raise =>
    case Respond =>
    case CancelRequest =>
    case _ => ForeignMoveKeepsConsistent(g, callId, m);
  }

  lemma ForeignMoveKeepsConsistent(g: Saga, callId: CallId, m: Move)
    requires Consistent(g, callId) && May(g, callId, m)
    requires m.OtherAssign? || m.OtherRelease? || m.OtherReassign? || m.OtherHealth? || m.Discovered?
    ensures Consistent(Go(g, callId, m), callId)
  {
    hide HeldBy, NotHeld, Assigned, Released, Reassigned;
    var g' := Go(g, callId, m);
    assert g'.stage == g.stage;
    if g.stage.Cancelled? { assert HoldsAt(g.ws, g.stage.at, callId); }
    if NotHeld(g.ws, callId) { ForeignMovesKeepNotHeld(g, callId, m, callId); }
    if k: nat :| HeldBy(g.ws, callId, k) { ForeignMovesKeepHolder(g, callId, m, callId, k); }
    if Known(g.stage).Some? {
      var s := Known(g.stage).value;
      if NotHeld(g.ws, s) { ForeignMovesKeepNotHeld(g, callId, m, s); }
      if k: nat :| HeldBy(g.ws, s, k) {
        NotBoth(g.ws, s, k);
        assert g.stage != DialledTo(s) && g.stage != Cancelled(DialledTo(s));
        ForeignMovesKeepHolder(g, callId, m, s, k);
      }
    }
    HoldsAtFollows(g.ws, g'.ws, g.stage, callId);
  }

  /** What holds at a stage depends only on who holds the two ids. */
  lemma {:induction false} HoldsAtFollows(ws: seq<Rec>, ws': seq<Rec>, st: Stage, callId: CallId)
    requires HoldsAt(ws, st, callId)
    requires NotHeld(ws, callId) ==> NotHeld(ws', callId)
    requires (exists k :: HeldBy(ws, callId, k)) ==> exists k :: HeldBy(ws', callId, k)
    requires Known(st).Some? && NotHeld(ws, Known(st).value) ==> NotHeld(ws', Known(st).value)
    requires Known(st).Some? && (exists k :: HeldBy(ws, Known(st).value, k)) ==>
               exists k :: HeldBy(ws', Known(st).value, k)
    ensures HoldsAt(ws', st, callId)
    decreases st
  {
    if st.Cancelled? {
      HoldsAtFollows(ws, ws', st.at, callId);
    }
  }

  predicate Path(g: Saga, callId: CallId, ms: seq<Move>)
    decreases |ms|
  {
    ms == [] || (May(g, callId, ms[0]) && Path(Go(g, callId, ms[0]), callId, ms[1..]))
  }

  function End(g: Saga, callId: CallId, ms: seq<Move>): Saga
    requires Path(g, callId, ms)
    decreases |ms|
  {
    if ms == [] then g else End(Go(g, callId, ms[0]), callId, ms[1..])
  }

  lemma {:induction false} PathKeepsConsistent(g: Saga, callId: CallId, ms: seq<Move>)
    requires Consistent(g, callId) && Path(g, callId, ms)
    ensures Consistent(End(g, callId, ms), callId)
    decreases |ms|
  {
    if ms != [] {
      MoveKeepsConsistent(g, callId, ms[0]);
      PathKeepsConsistent(Go(g, callId, ms[0]), callId, ms[1..]);
    }
  }

  /** On every exit no worker holds the reservation id.  If the call was dialled, also when the
      route failed later, exactly one worker holds the provider's id. */
  lemma ExitsAreClean(ws: seq<Rec>, callId: CallId, ms: seq<Move>)
    requires NotHeld(ws, callId) && Path(Saga(ws, Begun), callId, ms)
    ensures var g := End(Saga(ws, Begun), callId, ms);
            && (g.stage.NoCapacity? || g.stage.Responded? || g.stage.Aborted? ==> NotHeld(g.ws, callId))
            && (g.stage.Responded? ==> exists k :: HeldBy(g.ws, g.stage.sid, k))
            && (g.stage.Aborted? && g.stage.dialled.Some? ==> exists k :: HeldBy(g.ws, g.stage.dialled.value, k))
  {
    PathKeepsConsistent(Saga(ws, Begun), callId, ms);
  }

  /** A cancelled request leaves its reservation on a worker exactly when it was cancelled before the rename:
      only a raised exception is cleaned up. */
  lemma CancelledLeavesReservationExactlyWhen(ws: seq<Rec>, callId: CallId, ms: seq<Move>)
    requires NotHeld(ws, callId) && Path(Saga(ws, Begun), callId, ms)
    requires End(Saga(ws, Begun), callId, ms).stage.Cancelled?
    ensures var g := End(Saga(ws, Begun), callId, ms);
            (exists k :: HeldBy(g.ws, callId, k)) <==>
            (g.stage.at.Reserved? || g.stage.at.DialledTo? || g.stage.at == Raised(None))
  {
    PathKeepsConsistent(Saga(ws, Begun), callId, ms);
    var g := End(Saga(ws, Begun), callId, ms);
    PathCancelsOnce(Saga(ws, Begun), callId, ms);
    var at := g.stage.at;
    assert HoldsAt(g.ws, at, callId);
    forall k: nat | HeldBy(g.ws, callId, k) ensures !NotHeld(g.ws, callId) { NotBoth(g.ws, callId, k); }
  }

  /** A request is cancelled only on its way. */
  predicate OnItsWay(st: Stage) {
    st.Cancelled? ==> st.at.Reserved? || st.at.DialledTo? || st.at.Renamed? || st.at.Raised?
  }

  lemma {:induction false} PathCancelsOnce(g: Saga, callId: CallId, ms: seq<Move>)
    requires OnItsWay(g.stage) && Path(g, callId, ms)
    ensures OnItsWay(End(g, callId, ms).stage)
    decreases |ms|
  {
    if ms != [] {
      PathCancelsOnce(Go(g, callId, ms[0]), callId, ms[1..]);
    }
  }

  /** The route's own steps leave every other call where it is. */
  lemma OwnMovesTouchNoOtherCall(g: Saga, callId: CallId, m: Move, t: CallId, j: nat)
    requires Consistent(g, callId) && May(g, callId, m) && j < |g.ws|
    requires m.Reserve? || m.RenameReservation? || m.CleanUp?
    requires t != callId && Known(Go(g, callId, m).stage) != Some(t)
    ensures g.ws[j].sid == Some(t) <==> Go(g, callId, m).ws[j].sid == Some(t)
  {
  }

  // ------------------------------------------------------------------
  // The route without interference
  // ------------------------------------------------------------------

  predicate Ends(g: Saga, callId: CallId, ms: seq<Move>, last: Saga) {
    Path(g, callId, ms) && End(g, callId, ms) == last
  }

  lemma NoMove(g: Saga, callId: CallId)
    ensures Ends(g, callId, [], g)
  {
  }

  lemma OneMove(g: Saga, callId: CallId, next: Saga, ms: seq<Move>, rest: seq<Move>, last: Saga)
    requires ms != [] && rest == ms[1..]
    requires May(g, callId, ms[0]) && Go(g, callId, ms[0]) == next && Ends(next, callId, rest, last)
    ensures Ends(g, callId, ms, last)
  {
  }

  lemma FailureEnds(ws: seq<Rec>, callId: CallId, st: Stage)
    requires st.Reserved? || st.Renamed?
    ensures Ends(Saga(ws, st), callId, [Raise, CleanUp], Saga(Released(ws, callId), Aborted(Known(st))))
  {
    hide Ends, Released;
    var raised, last := Saga(ws, Raised(Known(st))), Saga(Released(ws, callId), Aborted(Known(st)));
    NoMove(last, callId);
    OneMove(raised, callId, last, [CleanUp], [], last);
    OneMove(Saga(ws, st), callId, raised, [Raise, CleanUp], [CleanUp], last);
  }

  lemma DialledEnds(held: seq<Rec>, callId: CallId, s: CallId)
    requires NotHeld(held, s) && s != callId
    ensures var g, moved := Saga(held, Reserved), Reassigned(held, callId, s);
            && Ends(g, callId, [Dial(s), RenameReservation, Respond], Saga(moved, Responded(s)))
            && Ends(g, callId, [Dial(s), RenameReservation, Raise, CleanUp],
                    Saga(Released(moved, callId), Aborted(Some(s))))
  {
    hide Ends, Reassigned, Released;
    var g, d := Saga(held, Reserved), Saga(held, DialledTo(s));
    var moved := Reassigned(held, callId, s);
    var m, done := Saga(moved, Renamed(s)), Saga(moved, Responded(s));
    var failed := Saga(Released(moved, callId), Aborted(Some(s)));
    NoMove(done, callId);
    OneMove(m, callId, done, [Respond], [], done);
    OneMove(d, callId, m, [RenameReservation, Respond], [Respond], done);
    OneMove(g, callId, d, [Dial(s), RenameReservation, Respond], [RenameReservation, Respond], done);
    FailureEnds(moved, callId, Renamed(s));
    OneMove(d, callId, m, [RenameReservation, Raise, CleanUp], [Raise, CleanUp], failed);
    OneMove(g, callId, d, [Dial(s), RenameReservation, Raise, CleanUp], [RenameReservation, Raise, CleanUp], failed);
  }

  /** The route's runs, by what fails: nothing, the dialling, or the response after the rename. */
  lemma UndisturbedRequests(ws: seq<Rec>, callId: CallId, s: CallId, now: real)
    requires s != callId
    ensures var g := Saga(ws, Begun);
            var held := Assigned(ws, callId, now);
            var moved := Reassigned(held, callId, s);
            if AssignedTo(ws) == None then Ends(g, callId, [Reserve(now)], Saga(ws, NoCapacity))
            else
              && Ends(g, callId, [Reserve(now), Raise, CleanUp], Saga(Released(held, callId), Aborted(None)))
              && (NotHeld(ws, s) ==>
                    && Ends(g, callId, [Reserve(now), Dial(s), RenameReservation, Respond], Saga(moved, Responded(s)))
                    && Ends(g, callId, [Reserve(now), Dial(s), RenameReservation, Raise, CleanUp],
                            Saga(Released(moved, callId), Aborted(Some(s)))))
  {
    hide Ends;
    var g, held := Saga(ws, Begun), Assigned(ws, callId, now);
    if AssignedTo(ws) == None {
      NoMove(Saga(ws, NoCapacity), callId);
      OneMove(g, callId, Saga(ws, NoCapacity), [Reserve(now)], [], Saga(ws, NoCapacity));
    } else {
      var r, moved := Saga(held, Reserved), Reassigned(held, callId, s);
      FailureEnds(held, callId, Reserved);
      OneMove(g, callId, r, [Reserve(now), Raise, CleanUp], [Raise, CleanUp],
              Saga(Released(held, callId), Aborted(None)));
      if NotHeld(ws, s) {
        DialledEnds(held, callId, s);
        OneMove(g, callId, r, [Reserve(now), Dial(s), RenameReservation, Respond],
                [Dial(s), RenameReservation, Respond], Saga(moved, Responded(s)));
        OneMove(g, callId, r, [Reserve(now), Dial(s), RenameReservation, Raise, CleanUp],
                [Dial(s), RenameReservation, Raise, CleanUp], Saga(Released(moved, callId), Aborted(Some(s))));
      }
    }
  }

  datatype Dialling = Accepted(sid: CallId) | Refused

  datatype Reply = NoWorkers | Success(sid: CallId) | Error

  method InitiateOutboundCall(pool: LocalWorkerPool, callId: CallId, dial: Dialling, responseFails: bool, now: real)
    returns (reply: Reply)
    requires pool.Valid() && NotHeld(pool.View(), callId)
    requires dial.Accepted? ==> dial.sid != callId && NotHeld(pool.View(), dial.sid)
    modifies pool.workers
    ensures pool.Valid() && NotHeld(pool.View(), callId)
    ensures reply == NoWorkers <==> AssignedTo(old(pool.View())) == None
    ensures reply == NoWorkers ==> pool.View() == old(pool.View())
    ensures reply.Success? <==> AssignedTo(old(pool.View())).Some? && dial.Accepted? && !responseFails
    ensures reply.Success? ==> reply.sid == dial.sid
    ensures reply != NoWorkers && dial.Accepted? ==> HeldBy(pool.View(), dial.sid, FirstAccepting(old(pool.View())))
    ensures reply != NoWorkers && dial.Refused? ==>
              pool.View() == Released(Assigned(old(pool.View()), callId, now), callId)
  {
    hide Holder, FirstAccepting, HeldBy, NotHeld, Assigned, AssignedTo, Reassigned, Released;
    hide LocalWorkerPool.Valid, LocalWorkerPool.View;
    ghost var before := pool.View();
    ReserveHolds(before, callId, now);
    ReserveKeepsNotHeld(before, callId, now);
    var w := pool.GetAndAssignWorker(callId, now);
    if w == null {
      return NoWorkers;
    }
    var failed := true;
    if dial.Accepted? {
      RenameMoves(pool.View(), callId, dial.sid, FirstAccepting(before));
      pool.ReassignCallSid(callId, dial.sid);
      failed := responseFails;
    }
    if failed {
      ReleaseFrees(pool.View(), callId);
      if dial.Accepted? { ReleaseKeepsOther(pool.View(), callId, dial.sid, FirstAccepting(before)); }
      var released := pool.ReleaseWorker(callId);
      return Error;
    }
    return Success(dial.sid);
  }
}
