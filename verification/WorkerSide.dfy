/** The worker process: WorkerState (app/worker/state.py), PrewarmCache (app/worker/prewarm.py) and
    the endpoints of app/worker/main.py that drive them.

    An endpoint has a cache half and a compare-and-set half, each under its own lock.  `Act` is one
    half, so a sequence of acts is any interleaving of any requests, reordered and duplicated. */
module WorkerSide {
  import opened Options
  import opened RedisState

  /** PREWARM_TTL_SECONDS */
  const PREWARM_TTL: real := 60.0

  /** Value of the worker: current_call_sid, is_available, and creation times by cache key. */
  datatype App = App(current: Option<CallId>, available: bool, cache: map<CallId, real>)

  datatype Act =
    | PutEntry(sid: CallId, now: real)
    | SeedCas(sid: CallId)
    | RekeyEntry(prior: CallId, next: CallId)
    | ReassignCas(prior: CallId, next: CallId)
    | RemoveEntry(sid: CallId)
    | CancelCas(sid: CallId)
    | StartCall(sid: CallId)
    | EndCall
    | Evict(now: real)

  function Rekeyed<E>(m: map<CallId, E>, o: CallId, n: CallId): map<CallId, E> {
    if o in m then (m - {o})[n := m[o]] else m
  }

  function Do(app: App, a: Act): App {
    match a
    case PutEntry(s, now) => app.(cache := app.cache[s := now])
    case SeedCas(s) => if app.current == None then app.(current := Some(s)) else app
    case RekeyEntry(o, n) => app.(cache := Rekeyed(app.cache, o, n))
    case ReassignCas(o, n) => if app.current == Some(o) then app.(current := Some(n)) else app
    case RemoveEntry(s) => app.(cache := app.cache - {s})
    case CancelCas(s) => if app.current == Some(s) then app.(current := None) else app
    case StartCall(s) => app.(current := Some(s), available := false)
    case EndCall => app.(current := None, available := true)
    case Evict(now) => app.(cache := map s | s in app.cache && now - app.cache[s] <= PREWARM_TTL :: app.cache[s])
  }

  function DoAll(app: App, acts: seq<Act>): App
    decreases |acts|
  {
    if acts == [] then app else DoAll(Do(app, acts[0]), acts[1..])
  }

  // ------------------------------------------------------------------
  // Compare-and-set
  // ------------------------------------------------------------------

  /** Acts that leave a worker on s alone. */
  predicate Spares(a: Act, s: CallId) {
    match a
    case EndCall => false
    case StartCall(t) => t == s
    case ReassignCas(o, n) => o != s || n == s
    case CancelCas(t) => t != s
    case _ => true
  }

  /** Spares is exact. */
  lemma SparesIsExact(app: App, a: Act, s: CallId)
    requires app.current == Some(s)
    ensures Do(app, a).current == Some(s) <==> Spares(a, s)
  {
  }

  /** After start_call(s) the worker reports s through every run of seeds, pushes and cancels that
      name other ids, in any order, until the call ends or another one starts. */
  lemma {:induction false} StaysOnCall(app: App, acts: seq<Act>, s: CallId)
    requires app.current == Some(s)
    requires forall i :: 0 <= i < |acts| ==> Spares(acts[i], s)
    ensures DoAll(app, acts).current == Some(s)
    decreases |acts|
  {
    if acts != [] {
      SparesIsExact(app, acts[0], s);
      StaysOnCall(Do(app, acts[0]), acts[1..], s);
    }
  }

  predicate MovesOn(a: Act, o: CallId, n: CallId) {
    a == ReassignCas(o, n) || a == StartCall(n)
  }

  /** From a seeded old id, any order and any duplication of the push old -> new and of
      start_call(new), mixed with acts on other ids, ends on the new id; without either of them
      the worker stays on the old one.  It never reports null in between. */
  lemma {:induction false} PushesConverge(app: App, acts: seq<Act>, o: CallId, n: CallId)
    requires app.current == Some(o) || app.current == Some(n)
    requires forall i :: 0 <= i < |acts| ==> MovesOn(acts[i], o, n) || (Spares(acts[i], o) && Spares(acts[i], n))
    ensures DoAll(app, acts).current ==
            if (exists i :: 0 <= i < |acts| && MovesOn(acts[i], o, n)) then Some(n) else app.current
    decreases |acts|
  {
    if acts != [] {
      var app1 := Do(app, acts[0]);
      PushesConverge(app1, acts[1..], o, n);
      if MovesOn(acts[0], o, n) {
        assert app1.current == Some(n);
      } else {
        assert app1.current == app.current;
        if i :| 0 <= i < |acts| && MovesOn(acts[i], o, n) {
          assert MovesOn(acts[1..][i - 1], o, n);
        }
        if i :| 0 <= i < |acts[1..]| && MovesOn(acts[1..][i], o, n) {
          assert MovesOn(acts[i + 1], o, n);
        }
      }
    }
  }

  /** Over every run of acts: the worker is available exactly when no call has started since the last one
      ended. */
  lemma {:induction false} AvailableBetweenCalls(app: App, acts: seq<Act>)
    requires app.available
    ensures DoAll(app, acts).available <==>
            forall i :: 0 <= i < |acts| && acts[i].StartCall? ==> exists j :: i < j < |acts| && acts[j].EndCall?
    decreases |acts|
  {
    hide DoAll;
    if acts == [] {
      assert DoAll(app, []) == app by { DoNothing(app); }
    } else {
      var m := |acts| - 1;
      var init := acts[..m];
      AvailableBetweenCalls(app, init);
      LastAct(app, acts);
      if acts[m].EndCall? {
        assert forall i :: 0 <= i < |acts| && acts[i].StartCall? ==> i < m < |acts| && acts[m].EndCall?;
      } else if acts[m].StartCall? {
        assert acts[m].StartCall?;
      } else if DoAll(app, init).available {
        forall i | 0 <= i < |acts| && acts[i].StartCall? ensures exists j :: i < j < |acts| && acts[j].EndCall? {
          assert init[i].StartCall?;
          var j :| i < j < m && init[j].EndCall?;
          assert acts[j].EndCall?;
        }
      } else {
        var i :| 0 <= i < m && init[i].StartCall? && forall j :: i < j < m ==> !init[j].EndCall?;
        assert acts[i].StartCall?;
        forall j | i < j < |acts| ensures !acts[j].EndCall? {
          assert j < m ==> acts[j] == init[j];
        }
      }
    }
  }

  lemma DoNothing(app: App)
    ensures DoAll(app, []) == app
  {
  }

  lemma {:induction false} LastAct(app: App, acts: seq<Act>)
    requires acts != []
    ensures DoAll(app, acts) == Do(DoAll(app, acts[..|acts| - 1]), acts[|acts| - 1])
    decreases |acts|
  {
    hide Do;
    var m := |acts| - 1;
    if m > 0 {
      LastAct(Do(app, acts[0]), acts[1..]);
      assert acts[1..][..m - 1] == acts[..m][1..];
    }
  }

  /** An entry survives an eviction exactly within 60 seconds of its creation; nothing else changes. */
  lemma EvictionMeans(app: App, now: real, s: CallId)
    ensures var app' := Do(app, Evict(now));
            && app'.current == app.current && app'.available == app.available
            && (s in app'.cache <==> s in app.cache && now <= app.cache[s] + 60.0)
            && (s in app'.cache ==> app'.cache[s] == app.cache[s])
  {
  }

  // ------------------------------------------------------------------
  // Cache entries
  // ------------------------------------------------------------------

  /** Re-keying loses an entry exactly when the new key is already in use by another entry. */
  lemma RekeyLosesExactlyWhen<E(!new)>(m: map<CallId, E>, o: CallId, n: CallId)
    requires forall a, b :: a in m && b in m && m[a] == m[b] ==> a == b
    ensures Rekeyed(m, o, n).Values == m.Values <==> !(o in m && n in m && o != n)
  {
    var m' := Rekeyed(m, o, n);
    if o in m {
      if n in m && o != n {
        assert m[n] in m.Values;
        assert forall k :: k in m' ==> m'[k] != m[n];
      } else {
        forall e | e in m.Values ensures e in m'.Values {
          var k :| k in m && m[k] == e;
          assert if k == o then n in m' && m'[n] == e else k in m' && m'[k] == e;
        }
        forall e | e in m'.Values ensures e in m.Values {
          var k :| k in m' && m'[k] == e;
          assert if k == n then m[o] == e else k in m && m[k] == e;
        }
      }
    }
  }

  // ------------------------------------------------------------------
  // Endpoints as runs of acts
  // ------------------------------------------------------------------

  function Prewarm(app: App, s: CallId, now: real): App {
    if s in app.cache then app else Do(Do(app, PutEntry(s, now)), SeedCas(s))
  }

  function ReassignPush(app: App, o: CallId, n: CallId): App {
    Do(Do(app, RekeyEntry(o, n)), ReassignCas(o, n))
  }

  function Cancel(app: App, s: CallId): App {
    if s in app.cache then Do(Do(app, RemoveEntry(s)), CancelCas(s)) else app
  }

  /** What a prewarm does: nothing for a cached id; otherwise a new entry, and a seed of an idle worker only. */
  lemma PrewarmMeans(app: App, s: CallId, now: real, t: CallId)
    ensures var app' := Prewarm(app, s, now);
            && app'.available == app.available
            && app'.current == (if s !in app.cache && app.current == None then Some(s) else app.current)
            && (t in app'.cache <==> t in app.cache || t == s)
            && (t in app'.cache ==> app'.cache[t] == if t in app.cache then app.cache[t] else now)
  {
  }

  /** What a push does: a worker on the old id moves to the new one whether or not an entry is cached; an
      entry of the old id moves with its age, and no other entry changes but one under the new id. */
  lemma PushMeans(app: App, o: CallId, n: CallId, t: CallId)
    ensures var app' := ReassignPush(app, o, n);
            && app'.available == app.available
            && app'.current == (if app.current == Some(o) then Some(n) else app.current)
            && (o !in app.cache ==> app'.cache == app.cache)
            && (o in app.cache ==>
                  && n in app'.cache && app'.cache[n] == app.cache[o]
                  && (t != n ==> (t in app'.cache <==> t in app.cache && t != o))
                  && (t != n && t in app'.cache ==> app'.cache[t] == app.cache[t]))
  {
  }

  /** What a cancel does: nothing without an entry; otherwise the entry goes, and the seed if it is its id. */
  lemma CancelMeans(app: App, s: CallId, t: CallId)
    ensures var app' := Cancel(app, s);
            && app'.available == app.available
            && app'.current == (if s in app.cache && app.current == Some(s) then None else app.current)
            && (t in app'.cache <==> t in app.cache && t != s)
            && (t in app'.cache ==> app'.cache[t] == app.cache[t])
  {
  }

  /** The prewarm round trip: on an idle worker, prewarm, rename and cancel undo each other. */
  lemma PrewarmRenameCancelRoundTrip(app: App, s: CallId, n: CallId, now: real)
    requires app.current == None && s !in app.cache && n !in app.cache
    ensures var app1 := ReassignPush(Prewarm(app, s, now), s, n);
            app1.current == Some(n) && app1.cache == app.cache[n := now] && Cancel(app1, n) == app
  {
    var app1 := ReassignPush(Prewarm(app, s, now), s, n);
    assert app1.cache == app.cache[n := now];
    assert app.cache[n := now] - {n} == app.cache;
  }

  /** A cancel makes a worker that shows s idle exactly when the entry is still cached.  Eviction
      drops the entry and keeps the seed; EvictedSeedStays says until when the worker then reports s. */
  lemma CancelNeedsTheEntry(app: App, s: CallId, now: real, later: real)
    requires app.current == Some(s)
    ensures Cancel(app, s).current == None <==> s in app.cache
    ensures s in app.cache && later - app.cache[s] > PREWARM_TTL ==>
              Cancel(Do(app, Evict(later)), s).current == Some(s)
  {
  }

  /** Requests to a worker that holds a seed: prewarms, pushes and cancels, of any ids. */
  datatype Request =
    | PrewarmRequest(sid: CallId, now: real)
    | PushRequest(prior: CallId, next: CallId)
    | CancelRequest(sid: CallId)

  function Serve(app: App, r: Request): App {
    match r
    case PrewarmRequest(s, now) => Prewarm(app, s, now)
    case PushRequest(o, n) => ReassignPush(app, o, n)
    case CancelRequest(s) => Cancel(app, s)
  }

  function ServeAll(app: App, rs: seq<Request>): App
    decreases |rs|
  {
    if rs == [] then app else ServeAll(Serve(app, rs[0]), rs[1..])
  }

  /** The request puts an entry under s or moves the worker off s. */
  predicate Touches(r: Request, s: CallId) {
    match r
    case PrewarmRequest(t, _) => t == s
    case PushRequest(o, n) => o == s || n == s
    case CancelRequest(_) => false
  }

  /** After its entry was evicted, a seeded worker reports the id through any number of requests, cancels of
      that id among them, until the id is prewarmed or renamed again. */
  lemma {:induction false} EvictedSeedStays(app: App, s: CallId, rs: seq<Request>)
    requires app.current == Some(s) && s !in app.cache
    requires forall i :: 0 <= i < |rs| ==> !Touches(rs[i], s)
    ensures ServeAll(app, rs).current == Some(s) && s !in ServeAll(app, rs).cache
    decreases |rs|
  {
    if rs != [] {
      EvictedSeedStays(Serve(app, rs[0]), s, rs[1..]);
    }
  }

  // ------------------------------------------------------------------
  // The objects
  // ------------------------------------------------------------------

  class WorkerState {
    var isAvailable: bool
    var current: Option<CallId>
    var hasActiveTask: bool

    constructor ()
      ensures isAvailable && current == None && !hasActiveTask
    {
      isAvailable, current, hasActiveTask := true, None, false;
    }

    method StartCall(s: CallId)
      modifies `isAvailable, `current
      ensures !isAvailable && current == Some(s)
    {
      isAvailable := false;
      current := Some(s);
    }

    method EndCall()
      modifies this
      ensures isAvailable && current == None && !hasActiveTask
    {
      isAvailable := true;
      current := None;
      hasActiveTask := false;
    }
  }

  class PrewarmEntry {
    var callSid: CallId
    const createdAt: real
    var isCancelled: bool

    constructor (s: CallId, now: real)
      ensures callSid == s && createdAt == now && !isCancelled
    {
      callSid, createdAt, isCancelled := s, now, false;
    }
  }

  class PrewarmCache {
    var entries: map<CallId, PrewarmEntry>

    /** A cache key is the id of its entry. */
    ghost predicate Valid()
      reads this, entries.Values
    {
      forall s :: s in entries ==> entries[s].callSid == s
    }

    function View(): map<CallId, real>
      reads this, entries.Values
    {
      map s | s in entries :: entries[s].createdAt
    }

    constructor ()
      ensures Valid() && entries == map[]
    {
      entries := map[];
    }

    method Put(e: PrewarmEntry)
      requires Valid()
      modifies `entries
      ensures Valid() && entries == old(entries)[e.callSid := e]
    {
      entries := entries[e.callSid := e];
    }

    method Remove(s: CallId) returns (e: PrewarmEntry?)
      requires Valid()
      modifies `entries
      ensures Valid() && entries == old(entries) - {s}
      ensures if s in old(entries) then e == old(entries)[s] else e == null
    {
      if s in entries {
        e := entries[s];
        entries := entries - {s};
      } else {
        e := null;
        assert entries - {s} == entries;
      }
    }

    method Reassign(o: CallId, n: CallId) returns (ok: bool)
      requires Valid()
      modifies this, entries.Values`callSid
      ensures Valid() && ok == (o in old(entries))
      ensures entries == Rekeyed(old(entries), o, n)
    {
      if o !in entries {
        return false;
      }
      var e := entries[o];
      entries := entries - {o};
      assert forall s :: s in entries ==> entries[s] != e;
      e.callSid := n;
      entries := entries[n := e];
      return true;
    }

    /** Removes exactly the entries older than PREWARM_TTL and returns them. */
    method EvictExpired(now: real) returns (expired: set<PrewarmEntry>)
      requires Valid()
      modifies `entries
      ensures Valid()
      ensures entries == map s | s in old(entries) && now - old(entries)[s].createdAt <= PREWARM_TTL :: old(entries)[s]
      ensures expired == set s | s in old(entries) && now - old(entries)[s].createdAt > PREWARM_TTL :: old(entries)[s]
    {
      expired := {};
      ghost var before := entries;
      var todo := entries.Keys;
      while todo != {}
        invariant todo <= entries.Keys <= before.Keys
        invariant forall s :: s in entries ==> entries[s] == before[s] && entries[s].callSid == s
        invariant forall s :: s in before && s !in todo ==> (s in entries <==> now - before[s].createdAt <= PREWARM_TTL)
        invariant expired == set s | s in before && s !in entries :: before[s]
        invariant forall s :: s in before && s !in entries ==> now - before[s].createdAt > PREWARM_TTL
        decreases todo
      {
        var s :| s in todo;
        todo := todo - {s};
        if now - entries[s].createdAt > PREWARM_TTL {
          expired := expired + {entries[s]};
          entries := entries - {s};
        }
      }
    }
  }

  lemma AllCached(c: PrewarmCache)
    ensures c.View().Keys == c.entries.Keys && forall s :: s in c.entries ==> c.View()[s] == c.entries[s].createdAt
  {
  }

  class WorkerApp {
    const state: WorkerState
    const cache: PrewarmCache

    ghost predicate Valid()
      reads cache, cache.entries.Values
    {
      cache.Valid()
    }

    ghost function View(): App
      reads state, cache, cache.entries.Values
    {
      App(state.current, state.isAvailable, cache.View())
    }

    constructor ()
      ensures Valid() && View() == App(None, true, map[])
      ensures fresh(state) && fresh(cache)
    {
      state := new WorkerState();
      cache := new PrewarmCache();
    }

    /** The websocket handler begins a call. */
    method StartCall(s: CallId)
      requires Valid()
      modifies state
      ensures Valid() && View() == Do(old(View()), Act.StartCall(s))
    {
      state.StartCall(s);
    }

    method EndCall()
      requires Valid()
      modifies state
      ensures Valid() && View() == Do(old(View()), Act.EndCall)
    {
      state.EndCall();
    }

    /** The eviction loop; the evicted entries are exactly those that leave. */
    method Evict(now: real) returns (expired: set<PrewarmEntry>)
      requires Valid()
      modifies cache
      ensures Valid() && View() == Do(old(View()), Act.Evict(now))
      ensures expired == set s | s in old(cache.entries) && s !in cache.entries :: old(cache.entries)[s]
    {
      hide PrewarmCache.View;
      ghost var before := cache.View();
      AllCached(cache);
      expired := cache.EvictExpired(now);
      AllCached(cache);
      assert cache.View() == map s | s in before && now - before[s] <= PREWARM_TTL :: before[s];
    }

    /** POST /prewarm; the result says whether prewarming was started. */
    method PrewarmCall(s: CallId, now: real) returns (started: bool)
      requires Valid()
      modifies state, cache
      ensures Valid() && View() == Prewarm(old(View()), s, now)
      ensures started == (s !in old(cache.entries))
    {
      if s in cache.entries {
        return false;
      }
      var e := new PrewarmEntry(s, now);
      cache.Put(e);
      if state.current == None {
        state.current := Some(s);
      }
      return true;
    }

    /** POST /prewarm/reassign */
    method ReassignPrewarm(o: CallId, n: CallId) returns (ok: bool)
      requires Valid()
      modifies state, cache, cache.entries.Values`callSid
      ensures Valid() && View() == ReassignPush(old(View()), o, n)
      ensures ok == (o in old(cache.entries))
    {
      ok := cache.Reassign(o, n);
      assert cache.View() == Rekeyed(old(cache.View()), o, n);
      if state.current == Some(o) {
        state.current := Some(n);
      }
    }

    /** DELETE /prewarm/{call_sid} */
    method CancelPrewarm(s: CallId) returns (cancelled: bool)
      requires Valid()
      modifies state, cache, cache.entries.Values`isCancelled
      ensures Valid() && View() == Cancel(old(View()), s)
      ensures cancelled == (s in old(cache.entries))
      ensures cancelled ==> old(cache.entries[s]).isCancelled
    {
      var e := cache.Remove(s);
      if e == null {
        return false;
      }
      if state.current == Some(s) {
        state.current := None;
      }
      e.isCancelled := true;
      return true;
    }
  }
}
