/** The LLM interruption judge (app/worker/strategies/llm_interruption_judge.py).

    Frames, resets and judge replies arrive in any order.  A superseded judge is asked to cancel,
    but the request may get lost: then its reply still arrives and only the sequence number stands
    between it and a turn start. */
module InterruptionJudge {
  import opened Options

  datatype Verdict = Backchannel | Interrupt | Failure

  /** `words` is 0 for a blank transcript.  A judge is named by the position of the event that
      launched it; `Reply` is the end of its LLM call, `CancelArrives` a requested cancellation
      that is not lost. */
  datatype Event =
    | BotStarted
    | BotStopped
    | Transcript(final: bool, words: nat)
    | Reset
    | Cleanup
    | Reply(judge: nat, verdict: Verdict)
    | CancelArrives(judge: nat)

  datatype Task = Task(seqNo: nat, done: bool, cancelRequested: bool)

  datatype State = State(
    botSpeaking: bool, greetingCompleted: bool, judgeSequence: nat,
    pending: Option<nat>, tasks: map<nat, Task>)

  const INITIAL := State(false, false, 0, None, map[])

  predicate Live(st: State, j: nat) {
    j in st.tasks && !st.tasks[j].done
  }

  function RequestCancel(st: State): State {
    if st.pending.Some? && Live(st, st.pending.value) then
      st.(tasks := st.tasks[st.pending.value := st.tasks[st.pending.value].(cancelRequested := true)])
    else st
  }

  /** The common part of reset and cleanup: the field is cleared only when the task was live. */
  function Supersede(st: State): State {
    var st1 := RequestCancel(st).(judgeSequence := st.judgeSequence + 1);
    if st.pending.Some? && Live(st, st.pending.value) then st1.(pending := None) else st1
  }

  /** One event at position i: the next state and whether a user turn is started.
      `t` is the instant-interrupt word count. */
  function Step(t: nat, st: State, e: Event, i: nat): (State, bool) {
    match e
    case BotStarted => (st.(botSpeaking := true), false)
    case BotStopped => (st.(botSpeaking := false, greetingCompleted := true), false)
    case Transcript(final, words) =>
      if words == 0 then (st, false)
      else if !(st.botSpeaking || !st.greetingCompleted) then (st, true)
      else if words >= t then (st, true)
      else if !final then (st, false)
      else
        var n := st.judgeSequence + 1;
        var st1 := RequestCancel(st);
        (st1.(judgeSequence := n, pending := Some(i), tasks := st1.tasks[i := Task(n, false, false)]), false)
    case Reset => (Supersede(st).(botSpeaking := false), false)
    case Cleanup => (Supersede(st), false)
    case Reply(j, v) =>
      if !Live(st, j) then (st, false)
      else
        (st.(tasks := st.tasks[j := st.tasks[j].(done := true)]),
         st.tasks[j].seqNo == st.judgeSequence && v != Backchannel)
    case CancelArrives(j) =>
      if Live(st, j) && st.tasks[j].cancelRequested
      then (st.(tasks := st.tasks[j := st.tasks[j].(done := true)]), false)
      else (st, false)
  }

  /** State before event i. */
  function StateAt(t: nat, es: seq<Event>, i: nat): State
    requires i <= |es|
  {
    if i == 0 then INITIAL else Step(t, StateAt(t, es, i - 1), es[i - 1], i - 1).0
  }

  predicate TurnStarted(t: nat, es: seq<Event>, i: nat)
    requires i < |es|
  {
    Step(t, StateAt(t, es, i), es[i], i).1
  }

  // ------------------------------------------------------------------
  // The trace specification
  // ------------------------------------------------------------------

  /** The last bot or reset event before i is a bot start. */
  predicate Speaking(es: seq<Event>, i: nat)
    requires i <= |es|
  {
    exists j :: 0 <= j < i && es[j] == BotStarted && forall k :: j < k < i ==> es[k] != BotStopped && es[k] != Reset
  }

  predicate Greeted(es: seq<Event>, i: nat)
    requires i <= |es|
  {
    exists j :: 0 <= j < i && es[j] == BotStopped
  }

  predicate NeedsJudge(es: seq<Event>, i: nat)
    requires i <= |es|
  {
    Speaking(es, i) || !Greeted(es, i)
  }

  /** A short final transcript while the bot speaks or greets. */
  predicate Launches(t: nat, es: seq<Event>, i: nat)
    requires i < |es|
  {
    es[i].Transcript? && es[i].final && 0 < es[i].words < t && NeedsJudge(es, i)
  }

  predicate Supersedes(t: nat, es: seq<Event>, i: nat)
    requires i < |es|
  {
    Launches(t, es, i) || es[i] == Reset || es[i] == Cleanup
  }

  predicate IsReplyOf(e: Event, p: nat) {
    e.Reply? && e.judge == p
  }

  predicate Newest(t: nat, es: seq<Event>, p: nat, i: nat)
    requires i <= |es|
  {
    forall k :: p < k < i ==> !Supersedes(t, es, k)
  }

  predicate Answered(es: seq<Event>, p: nat, i: nat)
    requires i <= |es|
  {
    exists k :: p < k < i && IsReplyOf(es[k], p)
  }

  /** A turn starts at i: mode 1 (bot silent after its greeting), tier 1 (long utterance), or the
      first verdict other than BACKCHANNEL, or an error, of a judge that nothing has superseded. */
  predicate ShouldStart(t: nat, es: seq<Event>, i: nat)
    requires i < |es|
  {
    match es[i]
    case Transcript(_, words) => words > 0 && (!NeedsJudge(es, i) || words >= t)
    case Reply(p, v) => p < i && Launches(t, es, p) && Newest(t, es, p, i) && !Answered(es, p, i) && v != Backchannel
    case _ => false
  }

  // ------------------------------------------------------------------
  // Machine and specification agree
  // ------------------------------------------------------------------

  lemma StepSpeech(t: nat, st: State, e: Event, i: nat)
    ensures var st' := Step(t, st, e, i).0;
            && st'.botSpeaking == (e == BotStarted || (st.botSpeaking && e != BotStopped && e != Reset))
            && st'.greetingCompleted == (st.greetingCompleted || e == BotStopped)
  {
  }

  lemma {:induction false} TracksSpeech(t: nat, es: seq<Event>, i: nat)
    requires i <= |es|
    ensures var st := StateAt(t, es, i); st.botSpeaking == Speaking(es, i) && st.greetingCompleted == Greeted(es, i)
  {
    hide Step;
    if i > 0 {
      TracksSpeech(t, es, i - 1);
      var e := es[i - 1];
      StepSpeech(t, StateAt(t, es, i - 1), e, i - 1);
      if Speaking(es, i - 1) && e != BotStopped && e != Reset {
        var j :| 0 <= j < i - 1 && es[j] == BotStarted
          && forall k :: j < k < i - 1 ==> es[k] != BotStopped && es[k] != Reset;
        assert Speaking(es, i);
      }
      if e == BotStarted { assert Speaking(es, i); }
      if Speaking(es, i) && e != BotStarted {
        var j :| 0 <= j < i && es[j] == BotStarted && forall k :: j < k < i ==> es[k] != BotStopped && es[k] != Reset;
        assert j < i - 1;
        assert Speaking(es, i - 1);
      }
      if e == BotStopped { assert Greeted(es, i); }
      if Greeted(es, i - 1) { assert Greeted(es, i); }
    }
  }

  /** What the tasks of the machine mean before event i. */
  ghost predicate TasksMean(t: nat, es: seq<Event>, i: nat, st: State)
    requires i <= |es|
  {
    && (forall p :: 0 <= p < i && Launches(t, es, p) ==> p in st.tasks)
    && forall p :: p in st.tasks ==> TaskMeans(t, es, i, st, p)
  }

  ghost predicate TaskMeans(t: nat, es: seq<Event>, i: nat, st: State, p: nat)
    requires i <= |es| && p in st.tasks
  {
    var k := st.tasks[p];
    && p < i && Launches(t, es, p)
    && k.seqNo <= st.judgeSequence
    && (k.seqNo == st.judgeSequence <==> Newest(t, es, p, i))
    && (k.cancelRequested ==> !Newest(t, es, p, i))
    && (Newest(t, es, p, i) ==> (k.done <==> Answered(es, p, i)))
  }

  /** At most one judge is live and not asked to cancel: the pending one, which carries the current
      sequence number; a judge asked to cancel is no longer the pending one. */
  ghost predicate OneJudge(st: State) {
    && (st.pending.Some? ==> st.pending.value in st.tasks)
    && (st.pending.Some? && Live(st, st.pending.value) ==> !st.tasks[st.pending.value].cancelRequested)
    && (forall p :: Live(st, p) && !st.tasks[p].cancelRequested ==>
          st.pending == Some(p) && st.tasks[p].seqNo == st.judgeSequence)
  }

  lemma {:induction false} AtMostOneJudge(t: nat, es: seq<Event>, i: nat)
    requires i <= |es|
    ensures OneJudge(StateAt(t, es, i))
  {
    if i > 0 {
      AtMostOneJudge(t, es, i - 1);
      StepKeepsOneJudge(t, StateAt(t, es, i - 1), es[i - 1], i - 1);
    }
  }

  lemma StepKeepsOneJudge(t: nat, st: State, e: Event, i: nat)
    requires OneJudge(st)
    ensures OneJudge(Step(t, st, e, i).0)
  {
  }

  lemma NewestStep(t: nat, es: seq<Event>, p: nat, i: nat)
    requires p < i < |es|
    ensures Newest(t, es, p, i + 1) <==> Newest(t, es, p, i) && !Supersedes(t, es, i)
    ensures Answered(es, p, i + 1) <==> Answered(es, p, i) || IsReplyOf(es[i], p)
  {
    if Newest(t, es, p, i) && !Supersedes(t, es, i) {
      forall k | p < k < i + 1 ensures !Supersedes(t, es, k) { }
    }
  }

  lemma SequenceCountsSupersessions(t: nat, es: seq<Event>, i: nat)
    requires i < |es|
    ensures StateAt(t, es, i + 1).judgeSequence == StateAt(t, es, i).judgeSequence +
              if Supersedes(t, es, i) then 1 else 0
  {
    hide Speaking, Greeted;
    TracksSpeech(t, es, i);
  }

  lemma OldTaskStillMeans(t: nat, es: seq<Event>, i: nat, p: nat)
    requires i < |es| && OneJudge(StateAt(t, es, i))
    requires p in StateAt(t, es, i).tasks && TaskMeans(t, es, i, StateAt(t, es, i), p)
    ensures p in StateAt(t, es, i + 1).tasks && TaskMeans(t, es, i + 1, StateAt(t, es, i + 1), p)
  {
    hide Newest, Answered, Speaking, Greeted;
    TracksSpeech(t, es, i);
    SequenceCountsSupersessions(t, es, i);
    NewestStep(t, es, p, i);
  }

  lemma NewTaskMeans(t: nat, es: seq<Event>, i: nat)
    requires i < |es| && Launches(t, es, i)
    ensures i in StateAt(t, es, i + 1).tasks && TaskMeans(t, es, i + 1, StateAt(t, es, i + 1), i)
  {
    hide Speaking, Greeted;
    TracksSpeech(t, es, i);
  }

  lemma TasksStep(t: nat, es: seq<Event>, i: nat)
    requires i < |es|
    ensures forall p :: p in StateAt(t, es, i + 1).tasks ==>
              p in StateAt(t, es, i).tasks || (p == i && Launches(t, es, i))
  {
    hide Speaking, Greeted;
    TracksSpeech(t, es, i);
  }

  lemma {:induction false} TasksMeanAlways(t: nat, es: seq<Event>, i: nat)
    requires i <= |es|
    ensures TasksMean(t, es, i, StateAt(t, es, i))
  {
    hide Step, TaskMeans, OneJudge, Launches;
    if i > 0 {
      TasksMeanAlways(t, es, i - 1);
      AtMostOneJudge(t, es, i - 1);
      TasksStep(t, es, i - 1);
      var st, st' := StateAt(t, es, i - 1), StateAt(t, es, i);
      if Launches(t, es, i - 1) { NewTaskMeans(t, es, i - 1); }
      forall p | p in st.tasks ensures p in st'.tasks && TaskMeans(t, es, i, st', p) {
        OldTaskStillMeans(t, es, i - 1, p);
      }
    }
  }

  /** The turn starts of the strategy are those of the trace specification, whatever happens to
      cancellations. */
  lemma TurnStartsMeetSpecification(t: nat, es: seq<Event>, i: nat)
    requires i < |es|
    ensures TurnStarted(t, es, i) <==> ShouldStart(t, es, i)
  {
    var st := StateAt(t, es, i);
    TracksSpeech(t, es, i);
    TasksMeanAlways(t, es, i);
    if es[i].Reply? {
      var p := es[i].judge;
      if p in st.tasks { assert TaskMeans(t, es, i, st, p); }
    }
  }

  /** In particular: a reply that comes after a later short final transcript, a reset or a cleanup
      never starts a turn, even if the judge was never cancelled. */
  lemma SupersededJudgeIsSilent(t: nat, es: seq<Event>, p: nat, k: nat, i: nat, v: Verdict)
    requires p < k < i < |es| && Supersedes(t, es, k) && es[i] == Reply(p, v)
    ensures !TurnStarted(t, es, i)
  {
    TurnStartsMeetSpecification(t, es, i);
  }

  /** Whether and when cancellations arrive makes no difference to any turn start. */
  lemma CancellationsDoNotMatter(t: nat, es: seq<Event>, fs: seq<Event>, i: nat)
    requires i < |es| == |fs|
    requires forall k :: 0 <= k < |es| ==> es[k] == fs[k] || (es[k].CancelArrives? && fs[k].CancelArrives?)
    ensures TurnStarted(t, es, i) <==> TurnStarted(t, fs, i)
  {
    TurnStartsMeetSpecification(t, es, i);
    TurnStartsMeetSpecification(t, fs, i);
    forall k | 0 <= k <= i ensures NeedsJudge(es, k) <==> NeedsJudge(fs, k) {
      SameSpeech(es, fs, k);
      SameSpeech(fs, es, k);
    }
    forall k | 0 <= k < i ensures Supersedes(t, es, k) <==> Supersedes(t, fs, k) { }
  }

  lemma SameSpeech(es: seq<Event>, fs: seq<Event>, i: nat)
    requires i <= |es| == |fs|
    requires forall k :: 0 <= k < |es| ==> es[k] == fs[k] || (es[k].CancelArrives? && fs[k].CancelArrives?)
    ensures (Speaking(es, i) ==> Speaking(fs, i)) && (Greeted(es, i) ==> Greeted(fs, i))
  {
    if Speaking(es, i) {
      var j :| 0 <= j < i && es[j] == BotStarted && forall k :: j < k < i ==> es[k] != BotStopped && es[k] != Reset;
      assert fs[j] == BotStarted;
    }
    if Greeted(es, i) {
      var j :| 0 <= j < i && es[j] == BotStopped;
      assert fs[j] == BotStopped;
    }
  }

  // ------------------------------------------------------------------
  // The strategy object
  // ------------------------------------------------------------------

  class LLMInterruptionJudge {
    const instantWords: nat
    var botSpeaking: bool
    var greetingCompleted: bool
    var judgeSequence: nat
    var pendingTask: Option<nat>
    var tasks: map<nat, Task>           // held by the task manager

    function View(): State
      reads this
    {
      State(botSpeaking, greetingCompleted, judgeSequence, pendingTask, tasks)
    }

    constructor (instantWords: nat)
      ensures View() == INITIAL && this.instantWords == instantWords
    {
      this.instantWords := instantWords;
      botSpeaking, greetingCompleted, judgeSequence, pendingTask, tasks := false, false, 0, None, map[];
    }

    method CancelPending() returns (wasLive: bool)
      modifies `tasks
      ensures View() == RequestCancel(old(View()))
      ensures wasLive == (pendingTask.Some? && Live(old(View()), pendingTask.value))
    {
      wasLive := pendingTask.Some? && pendingTask.value in tasks && !tasks[pendingTask.value].done;
      if wasLive {
        var j := pendingTask.value;
        tasks := tasks[j := tasks[j].(cancelRequested := true)];
      }
    }

    method OnReset()
      modifies this
      ensures View() == Step(instantWords, old(View()), Reset, 0).0
    {
      botSpeaking := false;
      judgeSequence := judgeSequence + 1;
      var wasLive := CancelPending();
      if wasLive {
        pendingTask := None;
      }
    }

    method OnCleanup()
      modifies this
      ensures View() == Step(instantWords, old(View()), Cleanup, 0).0
    {
      judgeSequence := judgeSequence + 1;
      var wasLive := CancelPending();
      if wasLive {
        pendingTask := None;
      }
    }

    /** process_frame; `taskId` names the task that the task manager would create. */
    method ProcessFrame(e: Event, taskId: nat) returns (turnStarted: bool)
      requires e.BotStarted? || e.BotStopped? || e.Transcript?
      modifies this
      ensures (View(), turnStarted) == Step(instantWords, old(View()), e, taskId)
    {
      turnStarted := false;
      if e.BotStarted? {
        botSpeaking := true;
        return;
      }
      if e.BotStopped? {
        botSpeaking := false;
        if !greetingCompleted {
          greetingCompleted := true;
        }
        return;
      }
      if e.words == 0 {
        return;
      }
      var needsJudge := botSpeaking || !greetingCompleted;
      if !needsJudge {
        return true;
      }
      if e.words >= instantWords {
        return true;
      }
      if !e.final {
        return;
      }
      judgeSequence := judgeSequence + 1;
      var wasLive := CancelPending();
      tasks := tasks[taskId := Task(judgeSequence, false, false)];
      pendingTask := Some(taskId);
    }

    /** The end of _run_judge for a live task. */
    method FinishJudge(j: nat, v: Verdict) returns (turnStarted: bool)
      requires Live(View(), j)
      modifies `tasks
      ensures (View(), turnStarted) == Step(instantWords, old(View()), Reply(j, v), 0)
    {
      var seqNo := tasks[j].seqNo;
      tasks := tasks[j := tasks[j].(done := true)];
      if seqNo != judgeSequence {
        return false;
      }
      return v != Backchannel;
    }
  }
}
