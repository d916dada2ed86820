/** The silence nudge (app/worker/pipeline.py, SilenceNudgeObserver): a timer task restarted and cancelled
    by observed frames, against a specification over the whole trace of timed events. */
module SilenceNudge {
  import opened Options

  /** What happens around the observer. Wake(k) is the event loop resuming the timer task that event
      number k created; a task whose sleep is not over and that was not cancelled stays asleep. */
  datatype Happening = Wire | UserStarted | BotStarted | BotStopped | CallEnd | OtherFrame | Wake(task: nat)

  datatype Event = Event(at: real, what: Happening)

  datatype Config = Config(timeout: real, aiGenerated: bool, message: string)

  datatype TimerTask = TimerTask(due: real, cancelled: bool)

  /** The observer's fields and the unfinished timer tasks, named by the event that created them. */
  datatype State = State(tasks: map<nat, TimerTask>, timer: Option<nat>, speaking: bool, active: bool, wired: bool)

  const INITIAL := State(map[], None, false, false, false)

  /** _cancel_timer */
  function Cancel(s: State): State {
    if s.timer.Some? && s.timer.value in s.tasks
    then s.(tasks := s.tasks[s.timer.value := s.tasks[s.timer.value].(cancelled := true)], timer := None)
    else s.(timer := None)
  }

  /** _start_timer */
  function Start(s: State, id: nat, due: real): State {
    var c := Cancel(s);
    if c.active && c.wired then c.(tasks := c.tasks[id := TimerTask(due, false)], timer := Some(id)) else c
  }

  /** _reset_timer */
  function Reset(s: State, id: nat, due: real): State {
    var c := Cancel(s);
    if c.speaking then c else Start(c, id, due)
  }

  function Step(s: State, e: Event, id: nat, cfg: Config): State {
    match e.what
    case Wire => Start(s.(wired := true, active := true), id, e.at + cfg.timeout)
    case UserStarted => Reset(s, id, e.at + cfg.timeout)
    case BotStarted => Cancel(s.(speaking := true))
    case BotStopped => Start(s.(speaking := false), id, e.at + cfg.timeout)
    case CallEnd => Cancel(s.(active := false))
    case OtherFrame => s
    case Wake(k) => if Resumes(s, k, e.at) then s.(tasks := s.tasks - {k}) else s
  }

  predicate Resumes(s: State, k: nat, now: real) {
    k in s.tasks && (s.tasks[k].cancelled || s.tasks[k].due <= now)
  }

  /** The check of _run_timer after its sleep. */
  predicate MayNudge(s: State, cfg: Config) {
    s.active && !s.speaking && s.wired && (cfg.aiGenerated || cfg.message != "")
  }

  predicate Live(s: State, k: nat) {
    k in s.tasks && !s.tasks[k].cancelled
  }

  /** Waking task k at this time queues a nudge. */
  predicate NudgesOnWake(s: State, k: nat, now: real, cfg: Config) {
    Live(s, k) && s.tasks[k].due <= now && MayNudge(s, cfg)
  }

  function StateAt(es: seq<Event>, n: nat, cfg: Config): State
    requires n <= |es|
  {
    if n == 0 then INITIAL else Step(StateAt(es, n - 1, cfg), es[n - 1], n - 1, cfg)
  }

  predicate Nudged(es: seq<Event>, j: nat, cfg: Config)
    requires j < |es|
  {
    es[j].what.Wake? && NudgesOnWake(StateAt(es, j, cfg), es[j].what.task, es[j].at, cfg)
  }

  // ------------------------------------------------------------------
  // The specification, read off the trace alone
  // ------------------------------------------------------------------

  ghost predicate SpeakingAt(es: seq<Event>, n: nat)
    requires n <= |es|
  {
    exists i :: 0 <= i < n && es[i].what.BotStarted? && forall j :: i < j < n ==> !es[j].what.BotStopped?
  }

  /** Wired, and no end frame since. */
  ghost predicate ActiveAt(es: seq<Event>, n: nat)
    requires n <= |es|
  {
    exists i :: 0 <= i < n && es[i].what.Wire? && forall j :: i < j < n ==> !es[j].what.CallEnd?
  }

  /** Event k opens a silence window. */
  ghost predicate Opens(es: seq<Event>, k: nat)
    requires k < |es|
  {
    match es[k].what
    case Wire => true
    case UserStarted => ActiveAt(es, k) && !SpeakingAt(es, k)
    case BotStopped => ActiveAt(es, k)
    case _ => false
  }

  /** Events that close whatever window is open. */
  predicate Breaks(h: Happening) {
    h.Wire? || h.UserStarted? || h.BotStarted? || h.BotStopped? || h.CallEnd?
  }

  /** The task of window k has slept its whole timeout when event i wakes it. */
  predicate Expires(es: seq<Event>, k: nat, i: nat, cfg: Config)
    requires k < |es| && i < |es|
  {
    es[i].what == Wake(k) && es[k].at + cfg.timeout <= es[i].at
  }

  /** Window k is open at n: opened, not closed by any event, not yet expired. */
  ghost predicate Open(es: seq<Event>, k: nat, n: nat, cfg: Config)
    requires n <= |es|
  {
    k < n && Opens(es, k) && forall i :: k < i < n ==> !Breaks(es[i].what) && !Expires(es, k, i, cfg)
  }

  ghost predicate ShouldNudge(es: seq<Event>, j: nat, cfg: Config)
    requires j < |es|
  {
    && es[j].what.Wake?
    && Open(es, es[j].what.task, j, cfg)
    && Expires(es, es[j].what.task, j, cfg)
    && !SpeakingAt(es, j)
    && (cfg.aiGenerated || cfg.message != "")
  }

  // ------------------------------------------------------------------
  // The machine keeps up with the trace
  // ------------------------------------------------------------------

  lemma {:induction false} TracksSpeech(es: seq<Event>, n: nat, cfg: Config)
    requires n <= |es|
    ensures StateAt(es, n, cfg).speaking <==> SpeakingAt(es, n)
  {
    if n > 0 {
      TracksSpeech(es, n - 1, cfg);
      assert es[n - 1].what.BotStarted? ==> SpeakingAt(es, n);
      if SpeakingAt(es, n - 1) && !es[n - 1].what.BotStopped? {
        var i :| 0 <= i < n - 1 && es[i].what.BotStarted? && forall j :: i < j < n - 1 ==> !es[j].what.BotStopped?;
        assert forall j :: i < j < n ==> !es[j].what.BotStopped?;
      }
    }
  }

  lemma {:induction false} TracksActive(es: seq<Event>, n: nat, cfg: Config)
    requires n <= |es|
    ensures StateAt(es, n, cfg).active <==> ActiveAt(es, n)
    ensures StateAt(es, n, cfg).active ==> StateAt(es, n, cfg).wired
  {
    if n > 0 {
      TracksActive(es, n - 1, cfg);
      assert es[n - 1].what.Wire? ==> ActiveAt(es, n);
      if ActiveAt(es, n - 1) && !es[n - 1].what.CallEnd? {
        var i :| 0 <= i < n - 1 && es[i].what.Wire? && forall j :: i < j < n - 1 ==> !es[j].what.CallEnd?;
        assert forall j :: i < j < n ==> !es[j].what.CallEnd?;
      }
    }
  }

  /** A live task is the one in _timer, and sleeps its timeout from the event that created it. */
  ghost predicate OneTimer(s: State, es: seq<Event>, n: nat, cfg: Config)
    requires n <= |es|
  {
    && (forall k: nat :: k in s.tasks ==> k < n && s.tasks[k].due == es[k].at + cfg.timeout)
    && (forall k: nat :: Live(s, k) ==> s.timer == Some(k))
  }

  /** With one timer at most, cancelling leaves none. */
  lemma CancelLeavesNone(s: State, es: seq<Event>, n: nat, cfg: Config)
    requires n <= |es| && OneTimer(s, es, n, cfg)
    ensures OneTimer(Cancel(s), es, n, cfg) && forall k: nat :: !Live(Cancel(s), k)
    ensures Cancel(s).active == s.active && Cancel(s).wired == s.wired && Cancel(s).speaking == s.speaking
  {
  }

  lemma StartLeavesOne(s: State, es: seq<Event>, n: nat, cfg: Config, due: real)
    requires n < |es| && OneTimer(s, es, n, cfg) && due == es[n].at + cfg.timeout
    ensures OneTimer(Start(s, n, due), es, n + 1, cfg)
    ensures forall k: nat :: Live(Start(s, n, due), k) <==> k == n && s.active && s.wired
  {
    hide Cancel;
    CancelLeavesNone(s, es, n, cfg);
  }

  lemma StepKeepsOneTimer(s: State, es: seq<Event>, n: nat, cfg: Config)
    requires n < |es| && OneTimer(s, es, n, cfg)
    ensures OneTimer(Step(s, es[n], n, cfg), es, n + 1, cfg)
  {
    hide Cancel, Start;
    var due := es[n].at + cfg.timeout;
    match es[n].what
    case Wire => StartLeavesOne(s.(wired := true, active := true), es, n, cfg, due);
    case UserStarted =>
      CancelLeavesNone(s, es, n, cfg);
      StartLeavesOne(Cancel(s), es, n, cfg, due);
    case BotStarted => CancelLeavesNone(s.(speaking := true), es, n, cfg);
    case BotStopped => StartLeavesOne(s.(speaking := false), es, n, cfg, due);
    case CallEnd => CancelLeavesNone(s.(active := false), es, n, cfg);
    case _ =>
  }

  /** At most one timer is pending after any events. */
  lemma {:induction false} AtMostOneTimer(es: seq<Event>, n: nat, cfg: Config)
    requires n <= |es|
    ensures OneTimer(StateAt(es, n, cfg), es, n, cfg)
    ensures forall k: nat, l: nat :: Live(StateAt(es, n, cfg), k) && Live(StateAt(es, n, cfg), l) ==> k == l
  {
    hide Step;
    if n > 0 {
      AtMostOneTimer(es, n - 1, cfg);
      StepKeepsOneTimer(StateAt(es, n - 1, cfg), es, n - 1, cfg);
    }
  }

  /** One event's effect on the task of event k. */
  lemma LiveAfterStep(s: State, es: seq<Event>, n: nat, cfg: Config, k: nat)
    requires n < |es| && k <= n && OneTimer(s, es, n, cfg)
    requires s.active <==> ActiveAt(es, n)
    requires s.speaking <==> SpeakingAt(es, n)
    requires s.active ==> s.wired
    ensures Live(Step(s, es[n], n, cfg), k) <==>
              if k == n then Opens(es, n) else Live(s, k) && !Breaks(es[n].what) && !Expires(es, k, n, cfg)
  {
    hide Cancel, Start, ActiveAt, SpeakingAt;
    var due := es[n].at + cfg.timeout;
    match es[n].what
    case Wire => StartLeavesOne(s.(wired := true, active := true), es, n, cfg, due);
    case UserStarted =>
      CancelLeavesNone(s, es, n, cfg);
      StartLeavesOne(Cancel(s), es, n, cfg, due);
    case BotStarted => CancelLeavesNone(s.(speaking := true), es, n, cfg);
    case BotStopped => StartLeavesOne(s.(speaking := false), es, n, cfg, due);
    case CallEnd => CancelLeavesNone(s.(active := false), es, n, cfg);
    case _ =>
  }

  /** The live tasks are exactly the open windows. */
  lemma {:induction false} LiveMeansOpen(es: seq<Event>, n: nat, cfg: Config, k: nat)
    requires n <= |es|
    ensures Live(StateAt(es, n, cfg), k) <==> Open(es, k, n, cfg)
  {
    hide Step, Opens, Expires, SpeakingAt, ActiveAt;
    AtMostOneTimer(es, n, cfg);
    if k < n {
      LiveMeansOpen(es, n - 1, cfg, k);
      AtMostOneTimer(es, n - 1, cfg);
      TracksSpeech(es, n - 1, cfg);
      TracksActive(es, n - 1, cfg);
      LiveAfterStep(StateAt(es, n - 1, cfg), es, n - 1, cfg, k);
    }
  }

  /** The field holds the task of the newest window, also when it has run out, until the next event that
      closes windows. */
  lemma {:induction false} TimerIsNewestWindow(es: seq<Event>, n: nat, cfg: Config, k: nat)
    requires n <= |es|
    ensures StateAt(es, n, cfg).timer == Some(k) <==>
            k < n && Opens(es, k) && forall i :: k < i < n ==> !Breaks(es[i].what)
  {
    hide Step, Opens, SpeakingAt, ActiveAt;
    if n > 0 {
      TimerIsNewestWindow(es, n - 1, cfg, k);
      TracksSpeech(es, n - 1, cfg);
      TracksActive(es, n - 1, cfg);
      TimerAfterStep(StateAt(es, n - 1, cfg), es, n - 1, cfg, k);
    }
  }

  lemma TimerAfterStep(s: State, es: seq<Event>, n: nat, cfg: Config, k: nat)
    requires n < |es| && (s.timer == Some(k) ==> k < n)
    requires s.active <==> ActiveAt(es, n)
    requires s.speaking <==> SpeakingAt(es, n)
    requires s.active ==> s.wired
    ensures Step(s, es[n], n, cfg).timer == Some(k) <==>
            if k == n then Opens(es, n) else s.timer == Some(k) && !Breaks(es[n].what)
  {
    hide ActiveAt, SpeakingAt;
  }

  /** A window is opened only while wired and not ended. */
  lemma OpenIsActive(es: seq<Event>, k: nat, n: nat, cfg: Config)
    requires n <= |es| && Open(es, k, n, cfg)
    ensures ActiveAt(es, n)
  {
    if !es[k].what.Wire? {
      var i :| 0 <= i < k && es[i].what.Wire? && forall j :: i < j < k ==> !es[j].what.CallEnd?;
      assert forall j :: i < j < n ==> !es[j].what.CallEnd?;
    }
  }

  lemma {:induction false} SpeechUnchanged(es: seq<Event>, k: nat, n: nat)
    requires k <= n <= |es|
    requires forall i :: k <= i < n ==> !es[i].what.BotStarted? && !es[i].what.BotStopped?
    ensures SpeakingAt(es, n) <==> SpeakingAt(es, k)
  {
    if SpeakingAt(es, k) {
      var i :| 0 <= i < k && es[i].what.BotStarted? && forall j :: i < j < k ==> !es[j].what.BotStopped?;
      assert forall j :: i < j < n ==> !es[j].what.BotStopped?;
    }
  }

  /** A timer is pending only while active; and while the bot speaks only if wiring itself happened
      while the bot spoke, the one place that starts the timer without looking. */
  lemma PendingOnlyWhileQuiet(es: seq<Event>, n: nat, cfg: Config, k: nat)
    requires n <= |es| && Live(StateAt(es, n, cfg), k)
    ensures k < n && StateAt(es, n, cfg).active
    ensures StateAt(es, n, cfg).speaking <==> es[k].what.Wire? && SpeakingAt(es, k)
  {
    LiveMeansOpen(es, n, cfg, k);
    OpenIsActive(es, k, n, cfg);
    TracksActive(es, n, cfg);
    TracksSpeech(es, n, cfg);
    SpeechUnchanged(es, k + 1, n);
    if es[k].what.BotStopped? {
      assert !SpeakingAt(es, k + 1);
    } else {
      SpeechUnchanged(es, k, k + 1);
    }
  }

  /** The observer nudges exactly where the trace says so. */
  lemma NudgesMeetSpecification(es: seq<Event>, j: nat, cfg: Config)
    requires j < |es|
    ensures Nudged(es, j, cfg) <==> ShouldNudge(es, j, cfg)
  {
    if es[j].what.Wake? {
      var k := es[j].what.task;
      LiveMeansOpen(es, j, cfg, k);
      AtMostOneTimer(es, j, cfg);
      TracksSpeech(es, j, cfg);
      TracksActive(es, j, cfg);
      if Open(es, k, j, cfg) {
        OpenIsActive(es, k, j, cfg);
      }
    }
  }

  /** A full timeout with no user start, bot start, bot stop or end frame precedes every nudge. */
  lemma FullWindowBeforeNudge(es: seq<Event>, j: nat, cfg: Config) returns (k: nat)
    requires j < |es| && Nudged(es, j, cfg)
    ensures k < j && es[k].at + cfg.timeout <= es[j].at
    ensures es[k].what.Wire? || es[k].what.UserStarted? || es[k].what.BotStopped?
    ensures forall i :: k < i < j ==> !Breaks(es[i].what)
  {
    NudgesMeetSpecification(es, j, cfg);
    k := es[j].what.task;
  }

  ghost predicate Clocked(es: seq<Event>) {
    forall i, j :: 0 <= i <= j < |es| ==> es[i].at <= es[j].at
  }

  /** Two nudges are at least a timeout apart, and something reopened the window between them. */
  lemma NudgesAreSpaced(es: seq<Event>, i: nat, j: nat, cfg: Config)
    requires i < j < |es| && Clocked(es) && Nudged(es, i, cfg) && Nudged(es, j, cfg)
    ensures es[i].at + cfg.timeout <= es[j].at
    ensures exists k :: i < k < j && Opens(es, k)
  {
    NudgesMeetSpecification(es, i, cfg);
    NudgesMeetSpecification(es, j, cfg);
    var k, l := es[i].what.task, es[j].what.task;
    assert Breaks(es[k].what) && Breaks(es[l].what);
    assert i < l;
  }

  // ------------------------------------------------------------------
  // The observer object
  // ------------------------------------------------------------------

  class SilenceNudgeObserver {
    const cfg: Config
    var tasks: map<nat, TimerTask>
    var timer: Option<nat>
    var botSpeaking: bool
    var active: bool
    var taskRef: bool
    var nudges: nat

    ghost function View(): State
      reads this
    {
      State(tasks, timer, botSpeaking, active, taskRef)
    }

    constructor (cfg: Config)
      ensures View() == INITIAL && this.cfg == cfg && nudges == 0
    {
      this.cfg := cfg;
      tasks, timer, botSpeaking, active, taskRef, nudges := map[], None, false, false, false, 0;
    }

    method CancelTimer()
      modifies `tasks, `timer
      ensures View() == Cancel(old(View()))
    {
      if timer.Some? && timer.value in tasks {
        tasks := tasks[timer.value := tasks[timer.value].(cancelled := true)];
      }
      timer := None;
    }

    method StartTimer(id: nat, now: real)
      modifies `tasks, `timer
      ensures View() == Start(old(View()), id, now + cfg.timeout)
    {
      CancelTimer();
      if active && taskRef {
        tasks := tasks[id := TimerTask(now + cfg.timeout, false)];
        timer := Some(id);
      }
    }

    method ResetTimer(id: nat, now: real)
      modifies `tasks, `timer
      ensures View() == Reset(old(View()), id, now + cfg.timeout)
    {
      CancelTimer();
      if !botSpeaking {
        StartTimer(id, now);
      }
    }

    method SetPipelineTask(id: nat, now: real)
      modifies this
      ensures View() == Step(old(View()), Event(now, Wire), id, cfg) && nudges == old(nudges)
    {
      taskRef := true;
      active := true;
      StartTimer(id, now);
    }

    method OnPushFrame(frame: Happening, id: nat, now: real)
      requires !frame.Wire? && !frame.Wake?
      modifies this
      ensures View() == Step(old(View()), Event(now, frame), id, cfg) && nudges == old(nudges)
    {
      if frame.UserStarted? {
        ResetTimer(id, now);
      } else if frame.BotStarted? {
        botSpeaking := true;
        CancelTimer();
      } else if frame.BotStopped? {
        botSpeaking := false;
        StartTimer(id, now);
      } else if frame.CallEnd? {
        active := false;
        CancelTimer();
      }
    }

    /** The event loop resumes a timer task: cancellation, or the code after the sleep.  A nudge is counted
        when it is queued; a cancellation while it is being queued loses it. */
    method ResumeTimer(task: nat, id: nat, now: real, cancelledWhileQueueing: bool)
      modifies this
      ensures View() == Step(old(View()), Event(now, Wake(task)), id, cfg)
      ensures nudges == old(nudges) +
                if NudgesOnWake(old(View()), task, now, cfg) && !cancelledWhileQueueing then 1 else 0
    {
      if task in tasks && tasks[task].cancelled {
        tasks := tasks - {task};
      } else if task in tasks && tasks[task].due <= now {
        tasks := tasks - {task};
        if !active || botSpeaking || !taskRef {
          return;
        }
        if !cfg.aiGenerated && cfg.message == "" {
          return;
        }
        if !cancelledWhileQueueing {
          nudges := nudges + 1;
        }
      }
    }
  }
}
