/** Webhook deliveries: app/services/webhook_service.py, the poller of
    app/services/webhook_worker.py, and what app/services/call.py enqueues and triggers.

    A delivery is a table row with a status, an attempt counter and a retry time.  `Deliver` is
    deliver_webhook on one row for one outcome of the POST; deliveries of one row are serial. */
module Webhooks {
  import opened Options

  datatype Status = Pending | Failed | Delivered | Exhausted

  datatype Row = Row(
    callRequest: string, event: string, status: Status,
    attempt: nat, maxAttempts: nat, nextRetry: Option<real>, createdAt: real)

  /** WEBHOOK_MAX_ATTEMPTS, WEBHOOK_BACKOFF_SECONDS, WEBHOOK_PENDING_FALLBACK_SECONDS */
  datatype Config = Config(maxAttempts: nat, backoffs: seq<real>, fallback: real)

  // column defaults of schema.sql
  const DEFAULT_ATTEMPT: nat := 0
  const DEFAULT_MAX_ATTEMPTS: nat := 5
  const COMPLETED := "call.completed"

  datatype Outcome =
    | EmptyPayload          // the call request is gone: no POST
    | SsrfRejected          // no POST
    | Http(code: int)
    | NetworkError          // timeout or transport error

  predicate IsPost(o: Outcome) {
    o.Http? || o.NetworkError?
  }

  predicate Open(r: Row) {
    r.status == Pending || r.status == Failed
  }

  /** `attempt_number or 1` and `max_attempts or WEBHOOK_MAX_ATTEMPTS` */
  function Attempt(r: Row): nat {
    if r.attempt == 0 then 1 else r.attempt
  }

  function MaxAttempts(cfg: Config, r: Row): nat {
    if r.maxAttempts == 0 then cfg.maxAttempts else r.maxAttempts
  }

  predicate Retryable(o: Outcome) {
    o == NetworkError || (o.Http? && (o.code >= 500 || o.code == 429))
  }

  predicate Succeeds(o: Outcome) {
    o.Http? && 200 <= o.code < 300
  }

  function Backoff(cfg: Config, attempt: nat): real
    requires attempt > 0
  {
    if cfg.backoffs == [] then 30.0
    else cfg.backoffs[if attempt - 1 < |cfg.backoffs| - 1 then attempt - 1 else |cfg.backoffs| - 1]
  }

  function Deliver(cfg: Config, r: Row, o: Outcome, now: real): Row {
    if !Open(r) then r
    else
      var a := Attempt(r);
      match o
      case EmptyPayload => r.(status := Failed, attempt := a, nextRetry := None)
      case SsrfRejected => r.(status := Exhausted, attempt := a, nextRetry := None)
      case _ =>
        if Succeeds(o) then r.(status := Delivered, attempt := a, nextRetry := None)
        else if a >= MaxAttempts(cfg, r) || !Retryable(o) then
          r.(status := Exhausted, attempt := a, nextRetry := None)
        else r.(status := Failed, attempt := a + 1, nextRetry := Some(now + Backoff(cfg, a)))
  }

  /** The row after a delivery.  The update at its end may fail, which is logged and swallowed: the row then
      stays as it was. */
  function Settle(cfg: Config, r: Row, o: Outcome, saved: bool, now: real): Row {
    if saved then Deliver(cfg, r, o, now) else r
  }

  /** The poller's claim predicate. */
  predicate Due(r: Row, t: real) {
    || (r.status == Failed && r.nextRetry.Some? && r.nextRetry.value <= t)
    || (r.status == Pending && (r.nextRetry == None || r.nextRetry.value <= t))
  }

  // ------------------------------------------------------------------
  // What a reply does to a row
  // ------------------------------------------------------------------

  /** The number of the attempt being made: an unset counter stands for the first. */
  predicate IsAttempt(r: Row, a: nat) {
    if r.attempt == 0 then a == 1 else a == r.attempt
  }

  /** Attempts remain after attempt a: the row's own maximum, or the configured one when it has none. */
  predicate Remain(cfg: Config, r: Row, a: nat) {
    a < if r.maxAttempts == 0 then cfg.maxAttempts else r.maxAttempts
  }

  /** The wait after attempt a: the a-th of the configured ones, the last one when they are used up, 30
      seconds when there are none. */
  predicate IsWait(cfg: Config, a: nat, wait: real) {
    if cfg.backoffs == [] then wait == 30.0
    else if 1 <= a <= |cfg.backoffs| then wait == cfg.backoffs[a - 1]
    else wait == cfg.backoffs[|cfg.backoffs| - 1]
  }

  /** The row is scheduled for attempt a + 1, due exactly from its wait on. */
  ghost predicate Rescheduled(cfg: Config, r': Row, a: nat, now: real) {
    && r'.status == Failed && r'.attempt == a + 1
    && exists wait :: IsWait(cfg, a, wait) && forall t: real :: Due(r', t) <==> t >= now + wait
  }

  /** A reply to an open row, by its status code: 2xx delivers; 429 and 5xx are tried again while attempts
      remain; everything else, and the last attempt, exhausts the row. */
  lemma ReplyMeans(cfg: Config, r: Row, code: int, a: nat, now: real)
    requires (r.status == Pending || r.status == Failed) && IsAttempt(r, a)
    ensures var r' := Deliver(cfg, r, Http(code), now);
            && (200 <= code < 300 <==> r'.status == Delivered)
            && ((code == 429 || code >= 500) && Remain(cfg, r, a) <==> r'.status == Failed)
            && (r'.status == Failed ==> Rescheduled(cfg, r', a, now))
            && (r'.status == Delivered || r'.status == Failed || r'.status == Exhausted)
            && (r'.status != Failed ==> r'.attempt == a && r'.nextRetry == None && forall t: real :: !Due(r', t))
            && r' == r.(status := r'.status, attempt := r'.attempt, nextRetry := r'.nextRetry)
  {
    var r' := Deliver(cfg, r, Http(code), now);
    if r'.status == Failed { assert IsWait(cfg, a, Backoff(cfg, a)); }
  }

  /** The other outcomes: a network error is tried again while attempts remain; a rejected target exhausts the
      row; an empty payload leaves it failed and never due. */
  lemma OtherOutcomesMean(cfg: Config, r: Row, a: nat, now: real)
    requires (r.status == Pending || r.status == Failed) && IsAttempt(r, a)
    ensures var r' := Deliver(cfg, r, NetworkError, now);
            && r' == r.(status := r'.status, attempt := r'.attempt, nextRetry := r'.nextRetry)
            && if Remain(cfg, r, a) then Rescheduled(cfg, r', a, now)
               else r'.status == Exhausted && r'.attempt == a && r'.nextRetry == None
    ensures Deliver(cfg, r, SsrfRejected, now) == r.(status := Exhausted, attempt := a, nextRetry := None)
    ensures var r' := Deliver(cfg, r, EmptyPayload, now);
            && r'.status == Failed && (forall t: real :: !Due(r', t))
            && r' == r.(status := Failed, attempt := a, nextRetry := None)
  {
    if Remain(cfg, r, a) { assert IsWait(cfg, a, Backoff(cfg, a)); }
  }

  // ------------------------------------------------------------------
  // How many POSTs
  // ------------------------------------------------------------------

  /** POSTs a row can still cause: the attempts that remain, none once it is closed. */
  function Fuel(cfg: Config, r: Row): nat {
    if !Open(r) then 0
    else if Attempt(r) < MaxAttempts(cfg, r) then MaxAttempts(cfg, r) - Attempt(r) + 1
    else 1
  }

  /** Each POST uses up fuel: either an attempt or the row itself.  Closed rows are absorbing. */
  lemma PostConsumesFuel(cfg: Config, r: Row, o: Outcome, now: real)
    ensures var r' := Deliver(cfg, r, o, now);
            && (Open(r) && IsPost(o) ==> Fuel(cfg, r') < Fuel(cfg, r))
            && Fuel(cfg, r') <= Fuel(cfg, r)
            && (!Open(r) ==> r' == r)
  {
  }

  type Table = map<nat, Row>

  /** `id` is the identifier the database would generate for an inserted row. */
  datatype Event =
    | Enqueue(id: nat, callRequest: string, event: string, at: real)
    | Fire(id: nat, outcome: Outcome, saved: bool, at: real)     // triggered or polled

  predicate SameCase(r: Row, callRequest: string, event: string) {
    r.callRequest == callRequest && r.event == event
  }

  predicate HasOpen(t: Table, callRequest: string, event: string) {
    exists i :: i in t && Open(t[i]) && SameCase(t[i], callRequest, event)
  }

  function NewRow(cfg: Config, callRequest: string, event: string, now: real): Row {
    Row(callRequest, event, Pending, DEFAULT_ATTEMPT, DEFAULT_MAX_ATTEMPTS,
        if event == COMPLETED then Some(now + cfg.fallback) else None, now)
  }

  predicate Fresh(t: Table, e: Event) {
    e.Enqueue? ==> e.id !in t
  }

  function Happen(cfg: Config, t: Table, e: Event): Table {
    match e
    case Enqueue(id, c, ev, now) => if HasOpen(t, c, ev) then t else t[id := NewRow(cfg, c, ev, now)]
    case Fire(id, o, saved, now) => if id in t then t[id := Settle(cfg, t[id], o, saved, now)] else t
  }

  predicate AllFresh(cfg: Config, t: Table, es: seq<Event>)
    decreases |es|
  {
    es == [] || (Fresh(t, es[0]) && AllFresh(cfg, Happen(cfg, t, es[0]), es[1..]))
  }

  function HappenAll(cfg: Config, t: Table, es: seq<Event>): Table
    decreases |es|
  {
    if es == [] then t else HappenAll(cfg, Happen(cfg, t, es[0]), es[1..])
  }

  predicate PostsTo(t: Table, e: Event, id: nat) {
    e.Fire? && e.id == id && id in t && Open(t[id]) && IsPost(e.outcome)
  }

  function Posts(cfg: Config, t: Table, es: seq<Event>, id: nat): nat
    decreases |es|
  {
    if es == [] then 0
    else (if PostsTo(t, es[0], id) then 1 else 0) + Posts(cfg, Happen(cfg, t, es[0]), es[1..], id)
  }

  /** POSTs whose update of the row was lost. */
  function Lost(cfg: Config, t: Table, es: seq<Event>, id: nat): nat
    decreases |es|
  {
    if es == [] then 0
    else (if PostsTo(t, es[0], id) && !es[0].saved then 1 else 0) + Lost(cfg, Happen(cfg, t, es[0]), es[1..], id)
  }

  /** Whatever is enqueued, triggered and polled, a row is POSTed no more often than its fuel and its lost
      updates together. */
  lemma {:induction false} PostsBounded(cfg: Config, t: Table, es: seq<Event>, id: nat)
    requires id in t && AllFresh(cfg, t, es)
    ensures Posts(cfg, t, es, id) <= Fuel(cfg, t[id]) + Lost(cfg, t, es, id)
    decreases |es|
  {
    if es != [] {
      var t1 := Happen(cfg, t, es[0]);
      if es[0].Fire? && es[0].id == id { PostConsumesFuel(cfg, t[id], es[0].outcome, es[0].at); }
      PostsBounded(cfg, t1, es[1..], id);
    }
  }

  /** Network errors only: first n whose update is lost, then m whose update is stored. */
  function Errors(id: nat, n: nat, m: nat): seq<Event>
    decreases n + m
  {
    if n > 0 then [Fire(id, NetworkError, false, 0.0)] + Errors(id, n - 1, m)
    else if m > 0 then [Fire(id, NetworkError, true, 0.0)] + Errors(id, 0, m - 1)
    else []
  }

  lemma {:induction false} ErrorsPost(cfg: Config, t: Table, id: nat, n: nat, m: nat)
    requires id in t && m <= Fuel(cfg, t[id]) && (n > 0 ==> Open(t[id]))
    ensures AllFresh(cfg, t, Errors(id, n, m))
    ensures Posts(cfg, t, Errors(id, n, m), id) == n + m && Lost(cfg, t, Errors(id, n, m), id) == n
    decreases n + m
  {
    var es := Errors(id, n, m);
    if n + m > 0 {
      var t1 := Happen(cfg, t, es[0]);
      if n > 0 {
        assert t1 == t && es[1..] == Errors(id, n - 1, m);
        ErrorsPost(cfg, t, id, n - 1, m);
      } else {
        assert es[1..] == Errors(id, 0, m - 1);
        ErrorsPost(cfg, t1, id, 0, m - 1);
      }
    }
  }

  /** In every run with at most n lost updates an open row is POSTed at most `bound` times exactly when the
      bound covers its fuel and the n: with n == 0 its remaining attempts. */
  lemma PostsBoundedExactlyWhen(cfg: Config, t: Table, id: nat, n: nat, bound: nat)
    requires id in t && Open(t[id])
    ensures (forall es: seq<Event> :: AllFresh(cfg, t, es) && Lost(cfg, t, es, id) <= n ==>
               Posts(cfg, t, es, id) <= bound)
            <==> Fuel(cfg, t[id]) + n <= bound
  {
    if Fuel(cfg, t[id]) + n <= bound {
      forall es: seq<Event> | AllFresh(cfg, t, es) && Lost(cfg, t, es, id) <= n ensures Posts(cfg, t, es, id) <= bound {
        PostsBounded(cfg, t, es, id);
      }
    } else {
      var es := Errors(id, n, Fuel(cfg, t[id]));
      ErrorsPost(cfg, t, id, n, Fuel(cfg, t[id]));
      assert AllFresh(cfg, t, es) && Lost(cfg, t, es, id) <= n && Posts(cfg, t, es, id) > bound;
    }
  }

  /** So a row keeps to its own attempts in every run with at most n lost updates exactly when n is 0. */
  lemma OwnBoundHoldsExactlyWhen(cfg: Config, t: Table, id: nat, n: nat)
    requires id in t && Open(t[id])
    ensures (forall es: seq<Event> :: AllFresh(cfg, t, es) && Lost(cfg, t, es, id) <= n ==>
               Posts(cfg, t, es, id) <= Fuel(cfg, t[id])) <==> n == 0
  {
    PostsBoundedExactlyWhen(cfg, t, id, n, Fuel(cfg, t[id]));
  }

  /** With updates lost without limit, no bound holds. */
  lemma LostUpdatesPostWithoutBound(cfg: Config, t: Table, id: nat, bound: nat) returns (es: seq<Event>)
    requires id in t && Open(t[id])
    ensures AllFresh(cfg, t, es) && Posts(cfg, t, es, id) > bound
  {
    es := Errors(id, bound + 1, 0);
    ErrorsPost(cfg, t, id, bound + 1, 0);
  }

  /** An enqueued row: at most DEFAULT_MAX_ATTEMPTS POSTs and its lost updates, whatever
      WEBHOOK_MAX_ATTEMPTS says. */
  lemma EnqueuedRowPostsBounded(cfg: Config, t: Table, id: nat, c: string, ev: string, now: real, es: seq<Event>)
    requires id !in t && !HasOpen(t, c, ev) && AllFresh(cfg, Happen(cfg, t, Enqueue(id, c, ev, now)), es)
    ensures var t1 := Happen(cfg, t, Enqueue(id, c, ev, now));
            Posts(cfg, t1, es, id) <= DEFAULT_MAX_ATTEMPTS + Lost(cfg, t1, es, id)
  {
    PostsBounded(cfg, Happen(cfg, t, Enqueue(id, c, ev, now)), es, id);
  }

  /** An enqueued row whose updates are all stored keeps to WEBHOOK_MAX_ATTEMPTS in every run exactly when
      that is at least the column's default, which it never replaces. */
  lemma ConfiguredMaximumHoldsExactlyWhen(cfg: Config, t: Table, id: nat, c: string, ev: string, now: real)
    requires id !in t && !HasOpen(t, c, ev)
    ensures var t1 := Happen(cfg, t, Enqueue(id, c, ev, now));
            (forall es: seq<Event> :: AllFresh(cfg, t1, es) && Lost(cfg, t1, es, id) <= 0 ==>
               Posts(cfg, t1, es, id) <= cfg.maxAttempts) <==> cfg.maxAttempts >= DEFAULT_MAX_ATTEMPTS
  {
    PostsBoundedExactlyWhen(cfg, Happen(cfg, t, Enqueue(id, c, ev, now)), id, 0, cfg.maxAttempts);
  }

  /** The bound is reached: n retryable failures in a row use n attempts, and the last one that
      the row allows exhausts it. */
  lemma {:induction false} FailuresUseEveryAttempt(cfg: Config, r: Row, outcomes: seq<Outcome>, times: seq<real>)
    requires Open(r) && |outcomes| == |times| && |outcomes| <= Fuel(cfg, r)
    requires forall o :: o in outcomes ==> Retryable(o) && !Succeeds(o)
    ensures var r' := DeliverAll(cfg, r, outcomes, times);
            && Fuel(cfg, r') == Fuel(cfg, r) - |outcomes|
            && (|outcomes| == Fuel(cfg, r) ==> r'.status == Exhausted)
            && (|outcomes| < Fuel(cfg, r) && outcomes != [] ==> r'.status == Failed && r'.nextRetry.Some?)
    decreases |outcomes|
  {
    if outcomes != [] {
      assert outcomes[0] in outcomes;
      var r1 := Deliver(cfg, r, outcomes[0], times[0]);
      if |outcomes| > 1 {
        FailuresUseEveryAttempt(cfg, r1, outcomes[1..], times[1..]);
      }
    }
  }

  function DeliverAll(cfg: Config, r: Row, outcomes: seq<Outcome>, times: seq<real>): Row
    requires |outcomes| == |times|
    decreases |outcomes|
  {
    if outcomes == [] then r else DeliverAll(cfg, Deliver(cfg, r, outcomes[0], times[0]), outcomes[1..], times[1..])
  }

  // ------------------------------------------------------------------
  // When the POSTs happen
  // ------------------------------------------------------------------

  /** One delivery: the POST starts, and the row is updated when it is done, unless the update is lost. */
  datatype Shot = Shot(outcome: Outcome, saved: bool, start: real, done: real)

  function AfterShot(cfg: Config, r: Row, s: Shot): Row {
    Settle(cfg, r, s.outcome, s.saved, s.done)
  }

  /** Deliveries one after the other, each of a row that its caller found pending or due at that time. */
  predicate OnTime(cfg: Config, r: Row, shots: seq<Shot>, clock: real)
    decreases |shots|
  {
    shots == [] ||
    (&& clock <= shots[0].start <= shots[0].done
     && (Open(r) ==> r.status == Pending || Due(r, shots[0].start))
     && OnTime(cfg, AfterShot(cfg, r, shots[0]), shots[1..], shots[0].done))
  }

  /** The deliveries that POST. */
  function PostsOf(cfg: Config, r: Row, shots: seq<Shot>): seq<Shot>
    decreases |shots|
  {
    if shots == [] then []
    else (if Open(r) && IsPost(shots[0].outcome) then [shots[0]] else [])
         + PostsOf(cfg, AfterShot(cfg, r, shots[0]), shots[1..])
  }

  function SavedCount(shots: seq<Shot>): nat {
    if shots == [] then 0 else (if shots[0].saved then 1 else 0) + SavedCount(shots[1..])
  }

  /** Sum of the n backoffs from the given attempt on. */
  function Waits(cfg: Config, attempt: nat, n: nat): real
    requires attempt > 0
    decreases n
  {
    if n == 0 then 0.0 else Backoff(cfg, attempt) + Waits(cfg, attempt + 1, n - 1)
  }

  lemma {:induction false} ClosedRowsStayQuiet(cfg: Config, r: Row, shots: seq<Shot>)
    requires !Open(r)
    ensures PostsOf(cfg, r, shots) == []
    decreases |shots|
  {
    if shots != [] { ClosedRowsStayQuiet(cfg, r, shots[1..]); }
  }

  /** After an empty payload no caller finds the row pending or due. */
  lemma StuckRowsStayQuiet(cfg: Config, r: Row, shots: seq<Shot>, clock: real)
    requires r.status == Failed && r.nextRetry == None && OnTime(cfg, r, shots, clock)
    ensures shots == [] && PostsOf(cfg, r, shots) == []
  {
  }

  /** No delivery of the row on time starts before `earliest`. */
  predicate NotBefore(r: Row, clock: real, earliest: real) {
    earliest <= clock || (r.status == Failed && r.nextRetry.Some? && earliest <= r.nextRetry.value)
  }

  /** From an open row on, the k-th later POST comes no earlier than the backoffs of the stored POSTs
      before it. */
  lemma {:induction false} RetriesAreSpaced(
    cfg: Config, r: Row, shots: seq<Shot>, clock: real, earliest: real, k: nat)
    requires Open(r) && OnTime(cfg, r, shots, clock) && NotBefore(r, clock, earliest)
    requires k < |PostsOf(cfg, r, shots)|
    ensures PostsOf(cfg, r, shots)[k].start >=
              earliest + Waits(cfg, Attempt(r), SavedCount(PostsOf(cfg, r, shots)[..k]))
    decreases |shots|
  {
    hide Backoff;
    var s := shots[0];
    var r1, ps := AfterShot(cfg, r, s), PostsOf(cfg, r, shots);
    if !IsPost(s.outcome) {
      if !Open(r1) {
        ClosedRowsStayQuiet(cfg, r1, shots[1..]);
      } else if s.saved {
        StuckRowsStayQuiet(cfg, r1, shots[1..], s.done);
      } else {
        assert ps == PostsOf(cfg, r1, shots[1..]);
        RetriesAreSpaced(cfg, r1, shots[1..], s.done, earliest, k);
      }
    } else if k > 0 {
      if !Open(r1) {
        ClosedRowsStayQuiet(cfg, r1, shots[1..]);
      } else {
        var next := if s.saved then earliest + Backoff(cfg, Attempt(r)) else earliest;
        assert NotBefore(r1, s.done, next) && Attempt(r1) == if s.saved then Attempt(r) + 1 else Attempt(r);
        RetriesAreSpaced(cfg, r1, shots[1..], s.done, next, k - 1);
        assert ps[..k][1..] == PostsOf(cfg, r1, shots[1..])[..k - 1];
      }
    } else {
      assert ps[..k] == [];
    }
  }

  /** The k-th later POST of an open row comes no earlier than the backoffs of the stored POSTs before it,
      counted from the first POST: all first k backoffs when no update was lost. */
  lemma {:induction false} PostsAreSpaced(cfg: Config, r: Row, shots: seq<Shot>, clock: real, k: nat)
    requires Open(r) && OnTime(cfg, r, shots, clock) && k < |PostsOf(cfg, r, shots)|
    ensures var ps := PostsOf(cfg, r, shots);
            ps[k].start >= ps[0].start + Waits(cfg, Attempt(r), SavedCount(ps[..k]))
    decreases |shots|
  {
    var s := shots[0];
    if IsPost(s.outcome) {
      RetriesAreSpaced(cfg, r, shots, s.start, s.start, k);
    } else {
      var r1 := AfterShot(cfg, r, s);
      if !Open(r1) {
        ClosedRowsStayQuiet(cfg, r1, shots[1..]);
      } else if s.saved {
        StuckRowsStayQuiet(cfg, r1, shots[1..], s.done);
      } else {
        assert PostsOf(cfg, r, shots) == PostsOf(cfg, r1, shots[1..]);
        PostsAreSpaced(cfg, r1, shots[1..], s.done, k);
      }
    }
  }

  lemma {:induction false} AllSavedCount(shots: seq<Shot>)
    requires forall s :: s in shots ==> s.saved
    ensures SavedCount(shots) == |shots|
  {
    if shots != [] {
      assert shots[0] in shots;
      AllSavedCount(shots[1..]);
    }
  }

  /** A delivery from an older snapshot is not on time: a trigger that saw the row pending and runs
      after a failed attempt POSTs again at once. */
  lemma StaleSnapshotIgnoresBackoff(cfg: Config, r: Row, at: real)
    requires r.status == Pending && Attempt(r) < MaxAttempts(cfg, r) && Backoff(cfg, Attempt(r)) > 0.0
    ensures var shots := [Shot(Http(500), true, at, at), Shot(Http(200), true, at, at)];
            && !OnTime(cfg, r, shots, at)
            && PostsOf(cfg, r, shots) == shots
  {
    var shots := [Shot(Http(500), true, at, at), Shot(Http(200), true, at, at)];
    var r1 := AfterShot(cfg, r, shots[0]);
    assert shots[1..] == [shots[1]] && shots[1..][1..] == [];
    assert PostsOf(cfg, r1, shots[1..]) == [shots[1]] + PostsOf(cfg, AfterShot(cfg, r1, shots[1]), []);
  }

  // ------------------------------------------------------------------
  // Deliveries that triggers and polls start from a snapshot
  // ------------------------------------------------------------------

  /** A delivery task and the row as its trigger or poll saw it. */
  datatype Snapshot = Snapshot(row: Row, at: real)

  /** One row, the deliveries under way for it, and the time. */
  datatype World = World(row: Row, tasks: map<nat, Snapshot>, clock: real)

  datatype RowEvent =
    | Triggered(task: nat, at: real)        // trigger_pending_webhooks saw the row pending
    | Claimed(task: nat, at: real)          // the poller saw the row due
    | Shoot(task: nat, shot: Shot)          // the task delivers; deliveries of one row are serial

  predicate Can(w: World, e: RowEvent) {
    match e
    case Triggered(k, at) => k !in w.tasks && w.clock <= at && w.row.status == Pending
    case Claimed(k, at) => k !in w.tasks && w.clock <= at && Due(w.row, at)
    case Shoot(k, s) => k in w.tasks && w.clock <= s.start <= s.done
  }

  function Next(cfg: Config, w: World, e: RowEvent): World
    requires Can(w, e)
  {
    match e
    case Triggered(k, at) => World(w.row, w.tasks[k := Snapshot(w.row, at)], at)
    case Claimed(k, at) => World(w.row, w.tasks[k := Snapshot(w.row, at)], at)
    case Shoot(k, s) => World(AfterShot(cfg, w.row, s), w.tasks - {k}, s.done)
  }

  predicate CanAll(cfg: Config, w: World, es: seq<RowEvent>)
    decreases |es|
  {
    es == [] || (Can(w, es[0]) && CanAll(cfg, Next(cfg, w, es[0]), es[1..]))
  }

  function Shots(es: seq<RowEvent>): seq<Shot> {
    if es == [] then [] else (if es[0].Shoot? then [es[0].shot] else []) + Shots(es[1..])
  }

  /** A snapshot shows the row pending or due; a row that changed since is not pending any more. */
  predicate SaneSnapshot(w: World, s: Snapshot) {
    && s.at <= w.clock
    && (s.row.status == Pending || Due(s.row, s.at))
    && (w.row == s.row || w.row.status != Pending)
  }

  predicate SaneWorld(w: World) {
    forall k :: k in w.tasks ==> SaneSnapshot(w, w.tasks[k])
  }

  lemma EventKeepsSaneWorld(cfg: Config, w: World, e: RowEvent)
    requires SaneWorld(w) && Can(w, e)
    ensures SaneWorld(Next(cfg, w, e))
  {
    var w' := Next(cfg, w, e);
    forall k | k in w'.tasks ensures SaneSnapshot(w', w'.tasks[k]) {
      if k in w.tasks { assert SaneSnapshot(w, w.tasks[k]); }
    }
  }

  /** What a task could compare when it starts: the row is as it saw it, or closed, or its retry time has
      come. */
  predicate UpToDate(w: World, e: RowEvent) {
    e.Shoot? && e.task in w.tasks ==>
      || w.row == w.tasks[e.task].row
      || !Open(w.row)
      || (w.row.nextRetry.Some? && w.row.nextRetry.value <= e.shot.start)
  }

  predicate AllUpToDate(cfg: Config, w: World, es: seq<RowEvent>)
    requires CanAll(cfg, w, es)
    decreases |es|
  {
    es == [] || (UpToDate(w, es[0]) && AllUpToDate(cfg, Next(cfg, w, es[0]), es[1..]))
  }

  /** A delivery from a snapshot is on time exactly when the snapshot is up to date. */
  lemma ShotIsOnTimeExactlyWhen(w: World, e: RowEvent)
    requires SaneWorld(w) && Can(w, e) && e.Shoot?
    ensures (Open(w.row) ==> w.row.status == Pending || Due(w.row, e.shot.start)) <==> UpToDate(w, e)
  {
    assert SaneSnapshot(w, w.tasks[e.task]);
  }

  /** Over every run of triggers, polls and deliveries of a row, lost updates among them. */
  lemma {:induction false} RunIsOnTimeExactlyWhen(cfg: Config, w: World, es: seq<RowEvent>)
    requires SaneWorld(w) && CanAll(cfg, w, es)
    ensures OnTime(cfg, w.row, Shots(es), w.clock) <==> AllUpToDate(cfg, w, es)
    decreases |es|
  {
    hide SaneWorld, AfterShot, Due, UpToDate;
    if es != [] {
      var w' := Next(cfg, w, es[0]);
      EventKeepsSaneWorld(cfg, w, es[0]);
      RunIsOnTimeExactlyWhen(cfg, w', es[1..]);
      if es[0].Shoot? {
        ShotIsOnTimeExactlyWhen(w, es[0]);
        assert Shots(es)[1..] == Shots(es[1..]);
      } else {
        NoShotIsUpToDate(w, es[0]);
        assert Shots(es) == Shots(es[1..]);
        ShotsComeLater(cfg, w', es[1..]);
      }
    }
  }

  lemma {:induction false} ShotsComeLater(cfg: Config, w: World, es: seq<RowEvent>)
    requires CanAll(cfg, w, es)
    ensures Shots(es) != [] ==> w.clock <= Shots(es)[0].start
    decreases |es|
  {
    if es != [] {
      ShotsComeLater(cfg, Next(cfg, w, es[0]), es[1..]);
    }
  }

  lemma NoShotIsUpToDate(w: World, e: RowEvent)
    requires !e.Shoot?
    ensures UpToDate(w, e)
  {
  }

  /** From an open row with no delivery under way: if every snapshot is up to date when it is used, the
      k-th later POST comes no earlier than the backoffs of the stored POSTs before it after the first. */
  lemma SnapshotRunsAreSpaced(cfg: Config, r: Row, now: real, es: seq<RowEvent>, k: nat)
    requires Open(r) && CanAll(cfg, World(r, map[], now), es)
    requires AllUpToDate(cfg, World(r, map[], now), es) && k < |PostsOf(cfg, r, Shots(es))|
    ensures var ps := PostsOf(cfg, r, Shots(es));
            && ps[k].start >= ps[0].start + Waits(cfg, Attempt(r), SavedCount(ps[..k]))
            && ((forall s :: s in ps[..k] ==> s.saved) ==> ps[k].start >= ps[0].start + Waits(cfg, Attempt(r), k))
  {
    var ps := PostsOf(cfg, r, Shots(es));
    RunIsOnTimeExactlyWhen(cfg, World(r, map[], now), es);
    PostsAreSpaced(cfg, r, Shots(es), now, k);
    if forall s :: s in ps[..k] ==> s.saved { AllSavedCount(ps[..k]); }
  }

  /** A POST from a snapshot that is not up to date comes before the row's retry time, or on a row that is
      not to be retried at all. */
  lemma OutdatedSnapshotPostsTooEarly(w: World, e: RowEvent)
    requires SaneWorld(w) && Can(w, e) && e.Shoot? && !UpToDate(w, e)
    ensures w.row.status == Failed && (w.row.nextRetry == None || e.shot.start < w.row.nextRetry.value)
  {
    assert SaneSnapshot(w, w.tasks[e.task]);
  }

  // ------------------------------------------------------------------
  // One open row per call request and event
  // ------------------------------------------------------------------

  predicate OneOpen(t: Table) {
    forall i, j :: i in t && j in t && i != j && Open(t[i]) && Open(t[j]) ==>
      !SameCase(t[j], t[i].callRequest, t[i].event)
  }

  lemma DeliveryStaysInCase(cfg: Config, r: Row, o: Outcome, saved: bool, now: real)
    ensures var r' := Settle(cfg, r, o, saved, now); SameCase(r', r.callRequest, r.event) && (Open(r') ==> Open(r))
  {
  }

  lemma StepKeepsOneOpen(cfg: Config, t: Table, e: Event)
    requires OneOpen(t) && Fresh(t, e)
    ensures OneOpen(Happen(cfg, t, e))
  {
    hide Settle;
    var t' := Happen(cfg, t, e);
    if e.Fire? && e.id in t { DeliveryStaysInCase(cfg, t[e.id], e.outcome, e.saved, e.at); }
    forall i, j | i in t' && j in t' && i != j && Open(t'[i]) && Open(t'[j])
      ensures !SameCase(t'[j], t'[i].callRequest, t'[i].event)
    {
      assert i in t ==> Open(t[i]) && SameCase(t[i], t'[i].callRequest, t'[i].event);
      assert j in t ==> Open(t[j]) && SameCase(t[j], t'[j].callRequest, t'[j].event);
    }
  }

  /** Over every run of callbacks, triggers, polls and deliveries. */
  lemma {:induction false} RunsKeepOneOpen(cfg: Config, t: Table, es: seq<Event>)
    requires OneOpen(t) && AllFresh(cfg, t, es)
    ensures OneOpen(HappenAll(cfg, t, es))
    decreases |es|
  {
    if es != [] {
      StepKeepsOneOpen(cfg, t, es[0]);
      RunsKeepOneOpen(cfg, Happen(cfg, t, es[0]), es[1..]);
    }
  }

  /** A repeated terminal callback inserts a second row for the same event exactly when the first
      one is closed by then: after a delivery the event is sent again. */
  lemma RepeatedCallbackInsertsExactlyWhenClosed(
    cfg: Config, t: Table, id: nat, id2: nat, c: string, ev: string, now: real, later: real, es: seq<Event>)
    requires id !in t && !HasOpen(t, c, ev)
    requires var t1 := Happen(cfg, t, Enqueue(id, c, ev, now));
             AllFresh(cfg, t1, es) && (forall k :: 0 <= k < |es| ==> es[k].Fire?) && id2 !in t1
    ensures var t2 := HappenAll(cfg, Happen(cfg, t, Enqueue(id, c, ev, now)), es);
            id in t2 && (id2 in Happen(cfg, t2, Enqueue(id2, c, ev, later)) <==> !Open(t2[id]))
  {
    var t1 := Happen(cfg, t, Enqueue(id, c, ev, now));
    assert forall i :: i in t1 && Open(t1[i]) && SameCase(t1[i], c, ev) ==> i == id;
    FiresOnlyClose(cfg, t1, es);
    var t2 := HappenAll(cfg, t1, es);
    if HasOpen(t2, c, ev) {
      var i :| i in t2 && Open(t2[i]) && SameCase(t2[i], c, ev);
      assert Open(t1[i]) && SameCase(t1[i], c, ev);
    }
  }

  lemma {:induction false} FiresOnlyClose(cfg: Config, t: Table, es: seq<Event>)
    requires forall k :: 0 <= k < |es| ==> es[k].Fire?
    ensures var t' := HappenAll(cfg, t, es);
            && t'.Keys == t.Keys
            && forall i :: i in t ==> SameCase(t'[i], t[i].callRequest, t[i].event) && (Open(t'[i]) ==> Open(t[i]))
    decreases |es|
  {
    if es != [] { FiresOnlyClose(cfg, Happen(cfg, t, es[0]), es[1..]); }
  }

  /** Until it is delivered, a completed call's new row is claimable exactly from its fallback time
      on; the row of any other event at once. */
  lemma {:induction false} CompletedWaitsForFallback(cfg: Config, t: Table, id: nat, r: Row, es: seq<Event>, at: real)
    requires id in t && t[id] == r && r == NewRow(cfg, r.callRequest, r.event, r.createdAt) && AllFresh(cfg, t, es)
    requires forall k :: 0 <= k < |es| ==> !(es[k].Fire? && es[k].id == id)
    ensures var t' := HappenAll(cfg, t, es);
            id in t' && (Due(t'[id], at) <==> (r.event == COMPLETED ==> at >= r.createdAt + cfg.fallback))
    decreases |es|
  {
    if es != [] { CompletedWaitsForFallback(cfg, Happen(cfg, t, es[0]), id, r, es[1..], at); }
  }

  /** A delivery leaves a row open and never due again exactly when its payload was empty: no poll
      claims it, no trigger sees it pending, and it still blocks its event from being enqueued. */
  lemma StuckExactlyWhenEmpty(cfg: Config, r: Row, o: Outcome, now: real)
    requires Open(r)
    ensures var r' := Deliver(cfg, r, o, now);
            (Open(r') && r'.status != Pending && forall t: real :: !Due(r', t)) <==> o == EmptyPayload
  {
    var r' := Deliver(cfg, r, o, now);
    if r'.nextRetry.Some? { assert Due(r', r'.nextRetry.value) || !Open(r'); }
  }

  // ------------------------------------------------------------------
  // The store
  // ------------------------------------------------------------------

  datatype CallStatus = Completed | FailedCall | NoAnswer | BusyCall | Cancelled | InProgress

  /** _EVENT_TYPE_MAP over the terminal statuses */
  function EventType(s: CallStatus): Option<string> {
    match s
    case Completed => Some(COMPLETED)
    case FailedCall => Some("call.failed")
    case NoAnswer => Some("call.no_answer")
    case BusyCall => Some("call.busy")
    case Cancelled => Some("call.cancelled")
    case InProgress => None
  }

  /** Which database statements of an enqueue fail; a failed check counts as finding no open row. */
  datatype Faults = Faults(checkFails: bool, insertFails: bool)

  function Enqueued(
    cfg: Config, t: Table, id: nat, c: string, status: CallStatus, wanted: bool, faults: Faults, now: real): Table
  {
    if EventType(status) == None || !wanted || faults.insertFails then t
    else if faults.checkFails then t[id := NewRow(cfg, c, EventType(status).value, now)]
    else Happen(cfg, t, Enqueue(id, c, EventType(status).value, now))
  }

  /** With failing statements, an enqueue keeps at most one open row per event exactly when it does not
      insert unchecked beside an open row. */
  lemma EnqueueKeepsOneOpenExactlyWhen(
    cfg: Config, t: Table, id: nat, c: string, status: CallStatus, wanted: bool, faults: Faults, now: real)
    requires OneOpen(t) && id !in t
    ensures OneOpen(Enqueued(cfg, t, id, c, status, wanted, faults, now)) <==>
            !(&& EventType(status).Some? && wanted && faults == Faults(true, false)
              && HasOpen(t, c, EventType(status).value))
  {
    hide Deliver;
    if EventType(status).Some? && wanted && !faults.insertFails {
      var ev := EventType(status).value;
      if faults.checkFails && HasOpen(t, c, ev) {
        var i :| i in t && Open(t[i]) && SameCase(t[i], c, ev);
        var t' := Enqueued(cfg, t, id, c, status, wanted, faults, now);
        assert i in t' && id in t' && i != id && Open(t'[i]) && Open(t'[id])
          && SameCase(t'[id], t'[i].callRequest, t'[i].event);
      } else {
        assert Enqueued(cfg, t, id, c, status, wanted, faults, now) == Happen(cfg, t, Enqueue(id, c, ev, now));
        StepKeepsOneOpen(cfg, t, Enqueue(id, c, ev, now));
      }
    }
  }

  /** The rows that a trigger delivers. */
  function PendingOf(t: Table, c: string): set<nat> {
    set i | i in t && t[i].status == Pending && t[i].callRequest == c
  }

  /** One trigger never delivers an event twice, and no later trigger delivers a row of it again. */
  lemma TriggeredEventsDiffer(cfg: Config, t: Table, c: string, i: nat, j: nat)
    requires OneOpen(t) && i in PendingOf(t, c) && j in PendingOf(t, c) && i != j
    ensures t[i].event != t[j].event
    ensures forall o, now :: Deliver(cfg, t[i], o, now).status != Pending
  {
    assert Open(t[i]) && Open(t[j]);
  }

  /** Which event a terminal status raises; a call in progress raises none. */
  lemma EventNames()
    ensures EventType(Completed) == Some("call.completed") && EventType(FailedCall) == Some("call.failed")
    ensures EventType(NoAnswer) == Some("call.no_answer") && EventType(BusyCall) == Some("call.busy")
    ensures EventType(Cancelled) == Some("call.cancelled") && EventType(InProgress) == None
    ensures forall s, t :: EventType(s) == EventType(t) ==> s == t
  {
  }

  /** A new row is triggered by its call request, also while it waits for its fallback time, exactly until a
      delivery of it is stored. */
  lemma {:induction false} TriggeredUntilStored(cfg: Config, t: Table, id: nat, es: seq<Event>)
    requires id in t && t[id].status == Pending && AllFresh(cfg, t, es)
    ensures var t' := HappenAll(cfg, t, es);
            id in t' && (id in PendingOf(t', t[id].callRequest) <==> !exists k :: 0 <= k < |es| && Stores(es[k], id))
    decreases |es|
  {
    if es != [] {
      var t1 := Happen(cfg, t, es[0]);
      if Stores(es[0], id) {
        NeverPendingAgain(cfg, t1, id, es[1..]);
      } else {
        TriggeredUntilStored(cfg, t1, id, es[1..]);
        if k :| 0 <= k < |es| && Stores(es[k], id) { assert Stores(es[1..][k - 1], id); }
        if k :| 0 <= k < |es[1..]| && Stores(es[1..][k], id) { assert Stores(es[k + 1], id); }
      }
    }
  }

  predicate Stores(e: Event, id: nat) {
    e.Fire? && e.id == id && e.saved
  }

  lemma {:induction false} NeverPendingAgain(cfg: Config, t: Table, id: nat, es: seq<Event>)
    requires id in t && t[id].status != Pending && AllFresh(cfg, t, es)
    ensures var t' := HappenAll(cfg, t, es); id in t' && t'[id].status != Pending
    decreases |es|
  {
    if es != [] { NeverPendingAgain(cfg, Happen(cfg, t, es[0]), id, es[1..]); }
  }

  class WebhookStore {
    const cfg: Config
    var rows: Table

    constructor (cfg: Config)
      ensures this.cfg == cfg && rows == map[]
    {
      this.cfg := cfg;
      rows := map[];
    }

    /** enqueue_webhook; `wanted` says that a callback URL is configured and the event subscribed.  The
        result is the row of the event: an open one, or the new one; none when there is nothing to send or
        the row cannot be inserted. */
    method EnqueueWebhook(
      newId: nat, callRequest: string, status: CallStatus, wanted: bool, faults: Faults, now: real)
      returns (id: Option<nat>)
      requires newId !in rows
      modifies this
      ensures rows == Enqueued(cfg, old(rows), newId, callRequest, status, wanted, faults, now)
      ensures id.Some? ==> EventType(status).Some? && wanted && id.value in rows && Open(rows[id.value])
                           && SameCase(rows[id.value], callRequest, EventType(status).value)
      ensures id == None && EventType(status).Some? && wanted ==> faults.insertFails
    {
      var ev := EventType(status);
      if ev == None || !wanted {
        return None;
      }
      if !faults.checkFails {
        if i :| i in rows && Open(rows[i]) && SameCase(rows[i], callRequest, ev.value) {
          return Some(i);
        }
      }
      if faults.insertFails {
        return None;
      }
      rows := rows[newId := NewRow(cfg, callRequest, ev.value, now)];
      return Some(newId);
    }

    /** trigger_pending_webhooks: the deliveries it starts. */
    method TriggerPending(callRequest: string, queryFails: bool) returns (ids: set<nat>)
      ensures ids == if queryFails then {} else PendingOf(rows, callRequest)
    {
      if queryFails {
        return {};
      }
      ids := set i | i in rows && rows[i].status == Pending && rows[i].callRequest == callRequest;
    }

    /** sync_call_request_outcome for a known call request: enqueue, then trigger unless a completed
        call still waits for its recording.  Then no delivery starts, and the new row is not due
        before its fallback time. */
    method SyncOutcome(
      newId: nat, callRequest: string, status: CallStatus, hasRecording: bool, wanted: bool, faults: Faults, now: real)
      returns (triggered: set<nat>)
      requires newId !in rows
      modifies this
      ensures rows == Enqueued(cfg, old(rows), newId, callRequest, status, wanted, faults, now)
      ensures triggered == if status != InProgress && (hasRecording || status != Completed)
                           then PendingOf(rows, callRequest) else {}
      ensures status == Completed && !hasRecording && newId in rows ==>
                forall t: real :: Due(rows[newId], t) <==> t >= now + cfg.fallback
    {
      triggered := {};
      if status == InProgress {
        return;
      }
      var id := EnqueueWebhook(newId, callRequest, status, wanted, faults, now);
      if hasRecording || status != Completed {
        triggered := TriggerPending(callRequest, false);
      }
    }

    /** deliver_webhook with the outcome of its POST, `saved` when the update at its end succeeds; the result
        says whether it was delivered. */
    method DeliverWebhook(id: nat, o: Outcome, saved: bool, now: real) returns (ok: bool)
      modifies this
      ensures rows == Happen(cfg, old(rows), Fire(id, o, saved, now))
      ensures ok <==> id in old(rows) && Open(old(rows)[id]) && Succeeds(o)
    {
      if id !in rows || !Open(rows[id]) {
        assert id in rows ==> rows[id := rows[id]] == rows;
        return false;
      }
      var r := rows[id];
      assert rows[id := r] == rows;
      var a := if r.attempt == 0 then 1 else r.attempt;
      var max := if r.maxAttempts == 0 then cfg.maxAttempts else r.maxAttempts;
      match o {
        case EmptyPayload => UpdateDelivery(id, Failed, a, saved);
        case SsrfRejected => UpdateDelivery(id, Exhausted, a, saved);
        case Http(code) =>
          if 200 <= code < 300 {
            UpdateDelivery(id, Delivered, a, saved);
            return true;
          }
          UpdateDeliveryFailure(id, a, a >= max || !(code >= 500 || code == 429), saved, now);
        case NetworkError => UpdateDeliveryFailure(id, a, a >= max, saved, now);
      }
      return false;
    }

    method UpdateDelivery(id: nat, status: Status, attempt: nat, saved: bool)
      requires id in rows
      modifies this
      ensures rows == if saved
                      then old(rows)[id := old(rows)[id].(status := status, attempt := attempt, nextRetry := None)]
                      else old(rows)
    {
      if saved {
        rows := rows[id := rows[id].(status := status, attempt := attempt, nextRetry := None)];
      }
    }

    method UpdateDeliveryFailure(id: nat, attempt: nat, isFinal: bool, saved: bool, now: real)
      requires id in rows && attempt > 0
      modifies this
      ensures rows == if !saved then old(rows)
                      else old(rows)[id := if isFinal
                        then old(rows)[id].(status := Exhausted, attempt := attempt, nextRetry := None)
                        else old(rows)[id].(status := Failed, attempt := attempt + 1,
                                            nextRetry := Some(now + Backoff(cfg, attempt)))]
    {
      if isFinal {
        UpdateDelivery(id, Exhausted, attempt, saved);
        return;
      }
      var last := |cfg.backoffs| - 1;
      var idx := if attempt - 1 < last then attempt - 1 else last;
      var backoff := if cfg.backoffs != [] then cfg.backoffs[idx] else 30.0;
      if saved {
        rows := rows[id := rows[id].(status := Failed, attempt := attempt + 1, nextRetry := Some(now + backoff))];
      }
    }

    /** _process_batch after the claim: one delivery after the other. */
    method ProcessBatch(ids: seq<nat>, outcomes: seq<Outcome>, saved: seq<bool>, times: seq<real>)
      requires |ids| == |outcomes| == |saved| == |times|
      modifies this
      ensures rows == HappenAll(cfg, old(rows), Batch(ids, outcomes, saved, times))
    {
      var k := 0;
      ghost var es := Batch(ids, outcomes, saved, times);
      while k < |ids|
        invariant 0 <= k <= |ids|
        invariant HappenAll(cfg, rows, es[k..]) == HappenAll(cfg, old(rows), es)
      {
        assert es[k..][1..] == es[k + 1..];
        var ok := DeliverWebhook(ids[k], outcomes[k], saved[k], times[k]);
        k := k + 1;
      }
    }
  }

  function Batch(ids: seq<nat>, outcomes: seq<Outcome>, saved: seq<bool>, times: seq<real>): (es: seq<Event>)
    requires |ids| == |outcomes| == |saved| == |times|
    ensures |es| == |ids|
    ensures forall k :: 0 <= k < |es| ==> es[k] == Fire(ids[k], outcomes[k], saved[k], times[k])
  {
    if ids == [] then []
    else [Fire(ids[0], outcomes[0], saved[0], times[0])] + Batch(ids[1..], outcomes[1..], saved[1..], times[1..])
  }
}
