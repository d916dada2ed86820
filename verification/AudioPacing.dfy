/** Pacing of outgoing audio (app/worker/jambonz/transport.py, _write_audio_sleep and its callers).
    A write is two steps, because interruptions can arrive while it sleeps. */
module AudioPacing {
  import opened Options

  // ------------------------------------------------------------------
  // The send interval
  // ------------------------------------------------------------------

  /** start(): the bytes of chunks10ms blocks of 10 ms over the bytes of one second. */
  function SendInterval(sampleRate: nat, channels: nat, chunks10ms: nat): real
    requires sampleRate > 0 && channels > 0
  {
    var audioBytes10ms := sampleRate / 100 * channels * 2;
    (audioBytes10ms * chunks10ms) as real / (sampleRate * channels * 2) as real
  }

  /** The interval is the nominal 10 ms per block exactly when the rate is a multiple of 100 Hz (or there
      is no block); at any other rate the truncation makes it shorter. */
  lemma IntervalIsNominalExactly(sampleRate: nat, channels: nat, chunks10ms: nat)
    requires sampleRate > 0 && channels > 0
    ensures 0.0 <= SendInterval(sampleRate, channels, chunks10ms) <= chunks10ms as real / 100.0
    ensures (SendInterval(sampleRate, channels, chunks10ms) == chunks10ms as real / 100.0)
            <==> (sampleRate % 100 == 0 || chunks10ms == 0)
  {
    Truncation(sampleRate, channels, chunks10ms);
    Fraction(sampleRate / 100 * channels * 2 * chunks10ms, sampleRate * channels * 2, chunks10ms);
  }

  /** One hundred blocks of bytes fall short of a second by the bytes of the truncated remainder. */
  lemma Truncation(sampleRate: nat, channels: nat, k: nat)
    requires sampleRate > 0 && channels > 0
    ensures sampleRate * channels * 2 > 0
    ensures sampleRate / 100 * channels * 2 * k * 100 <= sampleRate * channels * 2 * k
    ensures sampleRate / 100 * channels * 2 * k * 100 == sampleRate * channels * 2 * k
            <==> sampleRate % 100 == 0 || k == 0
  {
    var q, r := sampleRate / 100, sampleRate % 100;
    Scale(q, r, channels, k);
    Vanishes(r, channels, k);
    assert sampleRate == q * 100 + r;
  }

  lemma Scale(q: nat, r: nat, channels: nat, k: nat)
    ensures q * channels * 2 * k * 100 + r * channels * 2 * k == (q * 100 + r) * channels * 2 * k
  {
    var c := channels * 2 * k;
    assert q * channels * 2 * k == q * c && r * channels * 2 * k == r * c;
    assert (q * 100 + r) * channels * 2 * k == (q * 100 + r) * c;
  }

  lemma Vanishes(r: nat, channels: nat, k: nat)
    requires channels > 0
    ensures r * channels * 2 * k >= 0
    ensures r * channels * 2 * k == 0 <==> r == 0 || k == 0
  {
    if r > 0 && k > 0 {
      assert r * channels > 0;
      assert r * channels * 2 * k > 0;
    }
  }

  lemma Fraction(top: nat, bottom: nat, k: nat)
    requires bottom > 0 && top * 100 <= bottom * k
    ensures 0.0 <= top as real / bottom as real <= k as real / 100.0
    ensures top as real / bottom as real == k as real / 100.0 <==> top * 100 == bottom * k
  {
    var f := top as real / bottom as real;
    assert f * bottom as real == top as real;
    assert (bottom * k) as real == bottom as real * k as real;
  }

  // ------------------------------------------------------------------
  // The pacing state
  // ------------------------------------------------------------------

  /** Enter: a write reads the clock and goes to sleep. Leave: it wakes, reads the clock when it did not
      sleep, and completes. Cancel: it is cancelled in its sleep. Interrupt: an interruption frame resets the
      schedule. */
  datatype Event = Enter(at: real) | Leave(at: real) | Cancel(at: real) | Interrupt(at: real)

  datatype Sleep = Sleep(since: real, duration: real)

  datatype State = State(next: real, sleep: Option<Sleep>, clock: real)

  const INITIAL := State(0.0, None, 0.0)

  function SleepFor(next: real, now: real): real {
    if next - now > 0.0 then next - now else 0.0
  }

  /** A monotone clock, one write at a time, and sleeps that never wake early. */
  predicate May(s: State, e: Event) {
    && s.clock <= e.at
    && match e
       case Enter(_) => s.sleep == None
       case Leave(t) => s.sleep.Some? && s.sleep.value.since + s.sleep.value.duration <= t
       case Cancel(_) => s.sleep.Some?
       case Interrupt(_) => true
  }

  function Step(s: State, e: Event, interval: real): State {
    match e
    case Enter(t) => s.(sleep := Some(Sleep(t, SleepFor(s.next, t))), clock := t)
    case Leave(t) =>
      var slept := s.sleep.Some? && s.sleep.value.duration != 0.0;
      s.(next := (if slept then s.next else t) + interval, sleep := None, clock := t)
    case Cancel(t) => s.(sleep := None, clock := t)
    case Interrupt(t) => s.(next := 0.0, clock := t)
  }

  /** The state after the first n events, from s. */
  function StateAt(s: State, es: seq<Event>, n: nat, interval: real): State
    requires n <= |es|
  {
    if n == 0 then s else Step(StateAt(s, es, n - 1, interval), es[n - 1], interval)
  }

  /** The first n events may happen. */
  predicate Legal(s: State, es: seq<Event>, n: nat, interval: real)
    requires n <= |es|
  {
    n == 0 || (Legal(s, es, n - 1, interval) && May(StateAt(s, es, n - 1, interval), es[n - 1]))
  }

  lemma {:induction false} LegalPrefix(s: State, es: seq<Event>, m: nat, n: nat, interval: real)
    requires m <= n <= |es| && Legal(s, es, n, interval)
    ensures Legal(s, es, m, interval)
  {
    if m < n {
      LegalPrefix(s, es, m, n - 1, interval);
    }
  }

  lemma StateNext(s: State, es: seq<Event>, n: nat, interval: real)
    requires n < |es|
    ensures StateAt(s, es, n + 1, interval) == Step(StateAt(s, es, n, interval), es[n], interval)
  {
  }

  lemma LegalNext(s: State, es: seq<Event>, n: nat, interval: real)
    requires n < |es|
    ensures Legal(s, es, n + 1, interval) <==> Legal(s, es, n, interval) && May(StateAt(s, es, n, interval), es[n])
  {
  }

  lemma {:induction false} LegalFrom(s: State, es: seq<Event>, n: nat, interval: real)
    requires n <= |es| && forall k :: 0 <= k < n ==> May(StateAt(s, es, k, interval), es[k])
    ensures Legal(s, es, n, interval)
  {
    if n > 0 {
      LegalFrom(s, es, n - 1, interval);
    }
  }

  /** Events from position m on are events from the state at m. */
  lemma {:induction false} Suffix(s: State, es: seq<Event>, m: nat, k: nat, interval: real)
    requires m + k <= |es|
    ensures StateAt(StateAt(s, es, m, interval), es[m..], k, interval) == StateAt(s, es, m + k, interval)
    ensures Legal(s, es, m + k, interval) ==> Legal(StateAt(s, es, m, interval), es[m..], k, interval)
  {
    if k > 0 {
      Suffix(s, es, m, k - 1, interval);
    }
  }

  /** Writes completed among events lo..n-1. */
  function Completed(es: seq<Event>, lo: nat, n: nat): nat
    requires n <= |es|
  {
    if n <= lo then 0 else Completed(es, lo, n - 1) + if es[n - 1].Leave? then 1 else 0
  }

  function Intervals(k: nat, interval: real): real {
    k as real * interval
  }

  lemma NextInterval(k: nat, interval: real)
    ensures Intervals(k + 1, interval) == Intervals(k, interval) + interval
    ensures Intervals(0, interval) == 0.0
  {
  }

  // ------------------------------------------------------------------
  // No slower than the schedule
  // ------------------------------------------------------------------

  /** The schedule is at most one interval ahead of the clock, and a sleeping write sleeps up to it. */
  ghost predicate Close(s: State, interval: real) {
    && 0.0 <= s.clock
    && s.next <= s.clock + interval
    && (s.sleep.Some? ==> 0.0 <= s.sleep.value.since <= s.clock && 0.0 <= s.sleep.value.duration)
    && (s.sleep.Some? ==> s.next <= s.sleep.value.since + s.sleep.value.duration)
  }

  lemma StepKeepsClose(s: State, e: Event, interval: real)
    requires interval >= 0.0 && Close(s, interval) && May(s, e)
    ensures Close(Step(s, e, interval), interval)
  {
  }

  /** Between writes the schedule is never more than one interval ahead of the clock. */
  lemma {:induction false} ScheduleIsClose(s: State, es: seq<Event>, n: nat, interval: real)
    requires interval >= 0.0 && n <= |es| && Close(s, interval) && Legal(s, es, n, interval)
    ensures Close(StateAt(s, es, n, interval), interval)
  {
    hide Step, May, Close;
    if n > 0 {
      ScheduleIsClose(s, es, n - 1, interval);
      StepKeepsClose(StateAt(s, es, n - 1, interval), es[n - 1], interval);
    }
  }

  /** From the start, no write sleeps longer than one interval. */
  lemma SleepIsBounded(es: seq<Event>, n: nat, interval: real)
    requires interval >= 0.0 && n < |es| && Legal(INITIAL, es, n + 1, interval) && es[n].Enter?
    ensures 0.0 <= StateAt(INITIAL, es, n + 1, interval).sleep.value.duration <= interval
  {
    ScheduleIsClose(INITIAL, es, n, interval);
  }

  // ------------------------------------------------------------------
  // No faster than the interval
  // ------------------------------------------------------------------

  /** The schedule is not below its floor, and no sleeping write wakes below the schedule. */
  ghost predicate Above(s: State, floor: real) {
    s.next >= floor && (s.sleep.Some? ==> s.sleep.value.since + s.sleep.value.duration >= s.next)
  }

  lemma StepAbove(s: State, e: Event, interval: real, floor: real)
    requires May(s, e) && !e.Interrupt? && interval >= 0.0 && Above(s, floor)
    ensures Above(Step(s, e, interval), if e.Leave? then floor + interval else floor)
    ensures e.Leave? ==> e.at >= floor
  {
  }

  /** After a write that was scheduled for slot, with no interruption since, the schedule has grown by
      an interval per completed write. */
  lemma {:induction false} ScheduleGrows(
    s: State, es: seq<Event>, i: nat, n: nat, interval: real, slot: real)
    requires interval >= 0.0 && i < n <= |es| && Legal(s, es, n, interval)
    requires es[i].Leave? && StateAt(s, es, i + 1, interval).next >= slot + interval
    requires forall k :: i < k < n ==> !es[k].Interrupt?
    ensures Above(StateAt(s, es, n, interval), slot + interval + Intervals(Completed(es, i + 1, n), interval))
    ensures n > i + 1 && es[n - 1].Leave? ==> es[n - 1].at >= slot + Intervals(Completed(es, i + 1, n), interval)
  {
    hide May, Step, Intervals;
    if n == i + 1 {
      NextInterval(0, interval);
      LeaveWakes(s, es, i, interval);
    } else {
      ScheduleGrows(s, es, i, n - 1, interval, slot);
      var m := Completed(es, i + 1, n - 1);
      NextInterval(m, interval);
      StepAbove(StateAt(s, es, n - 1, interval), es[n - 1], interval, slot + interval + Intervals(m, interval));
    }
  }

  lemma LeaveWakes(s: State, es: seq<Event>, i: nat, interval: real)
    requires i < |es| && es[i].Leave?
    ensures StateAt(s, es, i + 1, interval).sleep == None
  {
  }

  /** From any write, counted from the time it was scheduled for: a late wake-up is made up. */
  lemma WritesArePacedFromTheirSlot(es: seq<Event>, i: nat, j: nat, interval: real)
    requires interval >= 0.0 && i < j < |es| && Legal(INITIAL, es, j + 1, interval)
    requires es[i].Leave? && es[j].Leave?
    requires forall k :: i < k < j ==> !es[k].Interrupt?
    ensures es[j].at >= StateAt(INITIAL, es, i, interval).next + Completed(es, i + 1, j + 1) as real * interval
  {
    hide Completed, Above;
    LegalPrefix(INITIAL, es, i + 1, j + 1, interval);
    LegalPrefix(INITIAL, es, i, i + 1, interval);
    ScheduleIsClose(INITIAL, es, i, interval);
    hide StateAt, Step, May, Legal, Close;
    ScheduleGrows(INITIAL, es, i, j + 1, interval, StateAt(INITIAL, es, i, interval).next);
  }

  // ------------------------------------------------------------------
  // Spacing
  // ------------------------------------------------------------------

  /** A write is in a sleep that was not over at once. */
  predicate Asleep(s: State) {
    s.sleep.Some? && s.sleep.value.duration != 0.0
  }

  /** The next write may enter at t and complete at u. */
  ghost predicate NextWrite(s: State, woke: real, t: real, u: real, interval: real) {
    var s1 := Step(s, Leave(woke), interval);
    May(s1, Enter(t)) && May(Step(s1, Enter(t), interval), Leave(u))
  }

  /** On the trace: some write has entered and was neither completed nor cancelled. */
  ghost predicate Entered(es: seq<Event>, n: nat)
    requires n <= |es|
  {
    exists i :: 0 <= i < n && es[i].Enter? && forall k :: i < k < n ==> !es[k].Leave? && !es[k].Cancel?
  }

  /** Nobody is asleep where no write is under way. */
  lemma {:induction false} AsleepOnlyIfEntered(es: seq<Event>, n: nat, interval: real)
    requires n <= |es|
    ensures StateAt(INITIAL, es, n, interval).sleep.Some? <==> Entered(es, n)
  {
    if n > 0 {
      AsleepOnlyIfEntered(es, n - 1, interval);
      assert es[n - 1].Enter? ==> Entered(es, n);
      if Entered(es, n - 1) && !es[n - 1].Leave? && !es[n - 1].Cancel? {
        var i :| 0 <= i < n - 1 && es[i].Enter?
          && forall k :: i < k < n - 1 ==> !es[k].Leave? && !es[k].Cancel?;
        assert forall k :: i < k < n ==> !es[k].Leave? && !es[k].Cancel?;
      }
    }
  }

  /** Every next write keeps its interval from a write exactly when that one did not sleep, or slept and
      woke no later than the schedule then says.  A late wake-up breaks it, and so does an interruption
      during the sleep, which puts the schedule back to zero. */
  lemma NextWriteIsSpacedExactlyWhen(s: State, woke: real, interval: real)
    requires interval > 0.0 && s.sleep.Some? && May(s, Leave(woke))
    ensures (forall t, u :: NextWrite(s, woke, t, u, interval) ==> u >= woke + interval)
            <==> (!Asleep(s) || woke <= s.next)
  {
    if Asleep(s) && woke > s.next {
      var u := if s.next + interval > woke then s.next + interval else woke;
      assert NextWrite(s, woke, woke, u, interval) && u < woke + interval;
    }
  }

  /** The i-th event is the first write completed, j a later one, and nothing interrupts up to j. */
  predicate Uninterrupted(es: seq<Event>, i: nat, j: nat) {
    && i < j < |es| && es[i].Leave? && es[j].Leave?
    && (forall k :: 0 <= k < i ==> !es[k].Leave?)
    && (forall k :: 0 <= k < j ==> !es[k].Interrupt?)
  }

  /** The promise of the pacing: in every continuation up to the next interruption, the m-th write after
      the first one completes at least m intervals after it, whatever the delays between the writes. */
  ghost predicate Paced(s: State, interval: real) {
    forall es: seq<Event>, i: nat, j: nat :: Uninterrupted(es, i, j) && Legal(s, es, j + 1, interval) ==>
      es[j].at >= es[i].at + Completed(es, i + 1, j + 1) as real * interval
  }

  /** The schedule at the start and after every interruption. */
  ghost predicate Fresh(s: State, interval: real) {
    s.next == 0.0 && Close(s, interval)
  }

  /** No write is asleep, or the one that is will be cancelled before event i. */
  predicate Undelayed(s: State, es: seq<Event>, i: nat)
    requires i <= |es|
  {
    Asleep(s) ==> exists c :: 0 <= c < i && es[c].Cancel?
  }

  /** The first write completed in such a continuation, whatever was cancelled before it, is not delayed. */
  lemma FirstWriteIsFree(s: State, es: seq<Event>, i: nat, interval: real)
    requires Fresh(s, interval) && i < |es| && Undelayed(s, es, i) && Legal(s, es, i + 1, interval)
    requires es[i].Leave? && forall k :: 0 <= k < i ==> !es[k].Leave? && !es[k].Interrupt?
    ensures StateAt(s, es, i + 1, interval).next == es[i].at + interval
  {
    StaysFresh(s, es, i, interval);
  }

  /** Until the first write is completed the schedule stays at zero, and a write that enters does not sleep. */
  lemma {:induction false} StaysFresh(s: State, es: seq<Event>, n: nat, interval: real)
    requires Fresh(s, interval) && n <= |es| && Legal(s, es, n, interval)
    requires forall k :: 0 <= k < n ==> !es[k].Leave? && !es[k].Interrupt?
    ensures StateAt(s, es, n, interval).next == 0.0 && 0.0 <= StateAt(s, es, n, interval).clock
    ensures Undelayed(s, es, n) ==> !Asleep(StateAt(s, es, n, interval))
  {
    if n > 0 {
      StaysFresh(s, es, n - 1, interval);
      if Undelayed(s, es, n) && !Undelayed(s, es, n - 1) {
        var c :| 0 <= c < n && es[c].Cancel?;
        assert c == n - 1;
      }
    }
  }

  lemma PacedFrom(s: State, es: seq<Event>, i: nat, j: nat, interval: real)
    requires interval > 0.0 && Fresh(s, interval)
    requires Uninterrupted(es, i, j) && Undelayed(s, es, i) && Legal(s, es, j + 1, interval)
    ensures es[j].at >= es[i].at + Completed(es, i + 1, j + 1) as real * interval
  {
    hide Legal, StateAt, Completed, Fresh, Asleep;
    LegalPrefix(s, es, i + 1, j + 1, interval);
    FirstWriteIsFree(s, es, i, interval);
    ScheduleGrows(s, es, i, j + 1, interval, es[i].at);
  }

  /** Up to the next interruption the promise holds exactly when no write was asleep at the last one. */
  lemma PacedExactlyWhen(s: State, interval: real)
    requires interval > 0.0 && Fresh(s, interval)
    ensures Paced(s, interval) <==> !Asleep(s)
  {
    if Asleep(s) {
      InterruptedSleepBreaksPacing(s, interval);
    } else {
      forall es: seq<Event>, i: nat, j: nat | Uninterrupted(es, i, j) && Legal(s, es, j + 1, interval)
        ensures es[j].at >= es[i].at + Completed(es, i + 1, j + 1) as real * interval
      {
        PacedFrom(s, es, i, j, interval);
      }
    }
  }

  /** A write that an interruption found asleep wakes on time, and the next one follows at once. */
  lemma InterruptedSleepBreaksPacing(s: State, interval: real)
    requires interval > 0.0 && Fresh(s, interval) && Asleep(s)
    ensures !Paced(s, interval)
  {
    var woke := if s.clock > s.sleep.value.since + s.sleep.value.duration then s.clock
                else s.sleep.value.since + s.sleep.value.duration;
    var d := SleepFor(interval, woke);
    var u := woke + d;
    var es := [Leave(woke), Enter(woke), Leave(u)];
    var s1 := Step(s, es[0], interval);
    var s2 := Step(s1, es[1], interval);
    assert s1 == State(interval, None, woke) && s2 == State(interval, Some(Sleep(woke, d)), woke);
    StateNext(s, es, 0, interval);
    StateNext(s, es, 1, interval);
    assert May(s, es[0]) && May(s1, es[1]) && May(s2, es[2]);
    LegalNext(s, es, 0, interval);
    LegalNext(s, es, 1, interval);
    LegalNext(s, es, 2, interval);
    assert Completed(es, 1, 2) == 0 && es[2].Leave?;
    assert Completed(es, 1, 3) == Completed(es, 1, 2) + 1;
    assert Uninterrupted(es, 0, 2);
    assert es[2].at < es[0].at + Completed(es, 1, 3) as real * interval;
  }

  /** A stretch of a trace: it begins with the trace or after an interruption, and is not interrupted
      before event j; i is the first write completed in it. */
  predicate Stretch(es: seq<Event>, from: nat, i: nat, j: nat) {
    && from <= i < j < |es| && (from == 0 || es[from - 1].Interrupt?)
    && es[i].Leave? && es[j].Leave?
    && (forall k :: from <= k < i ==> !es[k].Leave?)
    && (forall k :: from <= k < j ==> !es[k].Interrupt?)
  }

  /** On every trace, between interruptions: if the stretch began with no write asleep, or that write was
      cancelled before any was completed, the n-th write completed in it completes at least n - 1 intervals
      after the first. */
  lemma WritesArePaced(es: seq<Event>, from: nat, i: nat, j: nat, interval: real)
    requires interval > 0.0 && Stretch(es, from, i, j) && Legal(INITIAL, es, j + 1, interval)
    requires Asleep(StateAt(INITIAL, es, from, interval)) ==> exists c :: from <= c < i && es[c].Cancel?
    ensures es[j].at >= es[i].at + Completed(es, i + 1, j + 1) as real * interval
  {
    hide Legal, StateAt, Close, Completed, Asleep;
    var s, rest := StateAt(INITIAL, es, from, interval), es[from..];
    LegalPrefix(INITIAL, es, from, j + 1, interval);
    FreshAt(es, from, interval);
    Suffix(INITIAL, es, from, j + 1 - from, interval);
    StretchIsUninterrupted(es, from, i, j);
    if c :| from <= c < i && es[c].Cancel? { assert rest[c - from].Cancel?; }
    hide Stretch, Uninterrupted, Fresh;
    PacedFrom(s, rest, i - from, j - from, interval);
    CompletedIn(es, from, i + 1, j + 1);
  }

  lemma StretchIsUninterrupted(es: seq<Event>, from: nat, i: nat, j: nat)
    requires Stretch(es, from, i, j)
    ensures Uninterrupted(es[from..], i - from, j - from)
    ensures es[from..][i - from] == es[i] && es[from..][j - from] == es[j]
  {
    assert forall k :: 0 <= k < j - from ==> es[from..][k] == es[from + k];
  }

  lemma FreshAt(es: seq<Event>, from: nat, interval: real)
    requires interval > 0.0 && from <= |es| && (from == 0 || es[from - 1].Interrupt?)
    requires Legal(INITIAL, es, from, interval)
    ensures Fresh(StateAt(INITIAL, es, from, interval), interval)
  {
    ScheduleIsClose(INITIAL, es, from, interval);
  }

  lemma {:induction false} CompletedIn(es: seq<Event>, from: nat, lo: nat, n: nat)
    requires from <= lo && from <= n <= |es|
    ensures Completed(es[from..], lo - from, n - from) == Completed(es, lo, n)
  {
    if n > lo {
      CompletedIn(es, from, lo, n - 1);
    }
  }

  /** The condition is needed: the second write below sleeps, an interruption arrives, and although it
      wakes on time the third write completes at the same instant. */
  lemma InterruptedSleepTrace(interval: real)
    requires interval > 0.0
    ensures var woke := 1.0 + interval;
            var es := [Enter(1.0), Leave(1.0), Enter(1.0), Interrupt(1.0), Leave(woke), Enter(woke), Leave(woke)];
            && Legal(INITIAL, es, 7, interval) && Stretch(es, 4, 4, 6)
            && Asleep(StateAt(INITIAL, es, 4, interval)) && Completed(es, 5, 7) == 1
            && !(es[6].at >= es[4].at + Completed(es, 5, 7) as real * interval)
  {
    var woke := 1.0 + interval;
    var es := [Enter(1.0), Leave(1.0), Enter(1.0), Interrupt(1.0), Leave(woke), Enter(woke), Leave(woke)];
    var s3 := State(1.0 + interval, Some(Sleep(1.0, interval)), 1.0);
    assert StateAt(INITIAL, es, 1, interval) == State(0.0, Some(Sleep(1.0, 0.0)), 1.0);
    assert StateAt(INITIAL, es, 2, interval) == State(1.0 + interval, None, 1.0);
    assert StateAt(INITIAL, es, 3, interval) == s3;
    assert StateAt(INITIAL, es, 4, interval) == s3.(next := 0.0);
    assert StateAt(INITIAL, es, 5, interval) == State(interval, None, woke);
    assert StateAt(INITIAL, es, 6, interval) == State(interval, Some(Sleep(woke, 0.0)), woke);
    assert forall k :: 0 <= k < 7 ==> May(StateAt(INITIAL, es, k, interval), es[k]);
    LegalFrom(INITIAL, es, 7, interval);
    assert Completed(es, 5, 6) == 0;
  }

  // ------------------------------------------------------------------
  // The transport object
  // ------------------------------------------------------------------

  class OutputTransport {
    var sendInterval: real
    var nextSendTime: real
    var initialized: bool
    var closing: bool
    var connected: bool

    constructor ()
      ensures sendInterval == 0.0 && nextSendTime == 0.0 && !initialized && !closing && connected
    {
      sendInterval, nextSendTime, initialized, closing, connected := 0.0, 0.0, false, false, true;
    }

    method Begin(sampleRate: nat, channels: nat, chunks10ms: nat)
      requires sampleRate > 0 && channels > 0
      modifies `sendInterval, `initialized
      ensures initialized
      ensures sendInterval ==
                if old(initialized) then old(sendInterval) else SendInterval(sampleRate, channels, chunks10ms)
    {
      if initialized {
        return;
      }
      initialized := true;
      var audioBytes10ms := sampleRate / 100 * channels * 2;
      var chunkBytes := audioBytes10ms * chunks10ms;
      sendInterval := chunkBytes as real / (sampleRate * channels * 2) as real;
    }

    method Interrupted()
      modifies `nextSendTime
      ensures forall s: State, t: real :: s.next == old(nextSendTime) ==>
                Step(s, Interrupt(t), sendInterval).next == nextSendTime
    {
      nextSendTime := 0.0;
    }

    /** write_audio_frame up to its sleep; a closed transport writes nothing and does not pace. */
    method EnterWrite(now: real) returns (sleep: Option<Sleep>)
      ensures sleep.Some? <==> !closing && connected
      ensures sleep.Some? ==> forall s: State :: s.next == nextSendTime ==>
                Step(s, Enter(now), sendInterval).sleep == sleep
    {
      if closing || !connected {
        return None;
      }
      var duration := if nextSendTime - now > 0.0 then nextSendTime - now else 0.0;
      sleep := Some(Sleep(now, duration));
    }

    /** The rest of the write, after its sleep. */
    method LeaveWrite(sleep: Sleep, now: real)
      modifies `nextSendTime
      ensures nextSendTime == Step(State(old(nextSendTime), Some(sleep), now), Leave(now), sendInterval).next
    {
      if sleep.duration == 0.0 {
        nextSendTime := now + sendInterval;
      } else {
        nextSendTime := nextSendTime + sendInterval;
      }
    }
  }
}
