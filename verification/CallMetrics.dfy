/** Turn tracking of a call (app/worker/metrics.py, CallMetrics frame hooks): a streaming machine against
    a specification that reads the whole trace. Times are exact; rounding for the report is not modelled. */
module CallMetrics {
  import opened Options

  /** One observed frame, or one item of a metrics frame. Processor names are already in lower case. */
  datatype Event =
    | UserStarted
    | UserStopped(at: real)
    | BotStarted(at: real)
    | BotStopped
    | TtsStarted(at: real)
    | Ttfb(processor: string, ms: real)
    | SmartTurn(complete: bool, e2e: real)
    | OtherItem

  datatype Turn = Turn(total: real, stt: Option<real>, llm: Option<real>, tts: Option<real>, smart: Option<real>)

  predicate Contains(s: string, t: string) {
    exists i :: 0 <= i <= |s| && t <= s[i..]
  }

  datatype Stage = Stt | Llm | Tts | NoStage

  /** Which service a TTFB item belongs to: the branches in order. */
  function StageOf(p: string): Stage {
    if Contains(p, "deepgram") || Contains(p, "stt") then Stt
    else if Contains(p, "openai") || Contains(p, "llm") then Llm
    else if Contains(p, "elevenlabs") || Contains(p, "tts") then Tts
    else NoStage
  }

  datatype State = State(
    turnStart: Option<real>, inProgress: bool, botSpeaking: bool,
    stt: Option<real>, llm: Option<real>, tts: Option<real>, ttsStartedAt: Option<real>,
    lastSmart: Option<real>, pendingSmart: Option<real>,
    interruptions: nat, vadTriggers: nat, firstBotAudio: Option<real>, turns: seq<Turn>, latencies: seq<real>)

  const INITIAL :=
    State(None, false, false, None, None, None, None, None, None, 0, 0, None, [], [])

  function OrElse<T>(o: Option<T>, other: Option<T>): Option<T> {
    if o.Some? then o else other
  }

  function OnUserStarted(s: State): State {
    s.(vadTriggers := s.vadTriggers + 1,
       interruptions := if s.botSpeaking then s.interruptions + 1 else s.interruptions)
  }

  function OnUserStopped(s: State, t: real): State {
    s.(turnStart := Some(t), inProgress := true, stt := None, llm := None, tts := None, ttsStartedAt := None,
       pendingSmart := s.lastSmart, lastSmart := None)
  }

  function OnBotStarted(s: State, t: real): State {
    var s1 := s.(botSpeaking := true, firstBotAudio := OrElse(s.firstBotAudio, Some(t)),
                  ttsStartedAt := None, inProgress := false);
    if s.turnStart == None then s1
    else
      var total := (t - s.turnStart.value) * 1000.0;
      var timing := if s.ttsStartedAt.Some? then Some((t - s.ttsStartedAt.value) * 1000.0) else None;
      s1.(turnStart := None, latencies := s.latencies + [total],
          turns := s.turns + [Turn(total, s.stt, s.llm, OrElse(s.tts, timing), s.pendingSmart)])
  }

  function OnTtfb(s: State, p: string, ms: real): State {
    if !s.inProgress then s
    else match StageOf(p)
      case Stt => s.(stt := OrElse(s.stt, Some(ms)))
      case Llm => s.(llm := OrElse(s.llm, Some(ms)))
      case Tts => s.(tts := OrElse(s.tts, Some(ms)))
      case NoStage => s
  }

  function Step(s: State, e: Event): State {
    match e
    case UserStarted => OnUserStarted(s)
    case UserStopped(t) => OnUserStopped(s, t)
    case BotStarted(t) => OnBotStarted(s, t)
    case BotStopped => s.(botSpeaking := false)
    case TtsStarted(t) => s.(ttsStartedAt := OrElse(s.ttsStartedAt, Some(t)))
    case Ttfb(p, ms) => OnTtfb(s, p, ms)
    case SmartTurn(complete, e2e) => if complete then s.(lastSmart := Some(e2e)) else s
    case OtherItem => s
  }

  function StateAt(es: seq<Event>, n: nat): State
    requires n <= |es|
  {
    if n == 0 then INITIAL else Step(StateAt(es, n - 1), es[n - 1])
  }

  // ------------------------------------------------------------------
  // The specification, read off the trace alone
  // ------------------------------------------------------------------

  /** The turn answered by a bot start at j begins at the user stop u. */
  ghost predicate OpensTurn(es: seq<Event>, u: nat, j: nat)
    requires j <= |es|
  {
    u < j && es[u].UserStopped? && forall i :: u < i < j ==> !es[i].UserStopped? && !es[i].BotStarted?
  }

  datatype Probe = SttProbe | LlmProbe | TtsProbe | SynthesisProbe | AudioProbe

  /** The value that one event gives to one probe. */
  function Reading(p: Probe, e: Event): Option<real> {
    match p
    case SttProbe => if e.Ttfb? && StageOf(e.processor) == Stt then Some(e.ms) else None
    case LlmProbe => if e.Ttfb? && StageOf(e.processor) == Llm then Some(e.ms) else None
    case TtsProbe => if e.Ttfb? && StageOf(e.processor) == Tts then Some(e.ms) else None
    case SynthesisProbe => if e.TtsStarted? then Some(e.at) else None
    case AudioProbe => if e.BotStarted? then Some(e.at) else None
  }

  /** r is the first reading of the probe among events lo..hi-1. */
  ghost predicate IsFirst(es: seq<Event>, p: Probe, lo: nat, hi: nat, r: Option<real>)
    requires hi <= |es|
  {
    match r
    case None => forall i :: lo <= i < hi ==> Reading(p, es[i]) == None
    case Some(_) =>
      exists i :: lo <= i < hi && Reading(p, es[i]) == r && forall k :: lo <= k < i ==> Reading(p, es[k]) == None
  }

  /** r is the newest complete smart-turn value before n that no user stop has used up. */
  ghost predicate IsNewestSmart(es: seq<Event>, n: nat, r: Option<real>)
    requires n <= |es|
  {
    match r
    case None => forall i :: 0 <= i < n && IsComplete(es[i]) ==> exists k :: i < k < n && es[k].UserStopped?
    case Some(v) =>
      exists i :: 0 <= i < n && es[i] == SmartTurn(true, v)
        && forall k :: i < k < n ==> !es[k].UserStopped? && !IsComplete(es[k])
  }

  predicate IsComplete(e: Event) {
    e.SmartTurn? && e.complete
  }

  ghost predicate SpeakingAt(es: seq<Event>, n: nat)
    requires n <= |es|
  {
    exists i :: 0 <= i < n && es[i].BotStarted? && forall k :: i < k < n ==> !es[k].BotStopped?
  }

  /** t describes the turn from the user stop u to the bot start j. */
  ghost predicate IsTurn(es: seq<Event>, u: nat, j: nat, t: Turn)
    requires u < j < |es| && es[u].UserStopped? && es[j].BotStarted?
  {
    && t.total == (es[j].at - es[u].at) * 1000.0
    && IsFirst(es, SttProbe, u + 1, j, t.stt)
    && IsFirst(es, LlmProbe, u + 1, j, t.llm)
    && IsTts(es, u, j, t.tts)
    && IsNewestSmart(es, u, t.smart)
  }

  /** The first TTS reading; without one, the delay since synthesis first started. */
  ghost predicate IsTts(es: seq<Event>, u: nat, j: nat, r: Option<real>)
    requires u < j < |es| && es[j].BotStarted?
  {
    || (r.Some? && IsFirst(es, TtsProbe, u + 1, j, r))
    || (&& IsFirst(es, TtsProbe, u + 1, j, None)
        && match r
           case None => IsFirst(es, SynthesisProbe, u + 1, j, None)
           case Some(d) =>
             exists t0 :: d == (es[j].at - t0) * 1000.0 && IsFirst(es, SynthesisProbe, u + 1, j, Some(t0)))
  }

  ghost function Interruptions(es: seq<Event>, n: nat): set<nat>
    requires n <= |es|
  {
    set i: nat | i < n && es[i].UserStarted? && SpeakingAt(es, i)
  }

  function Triggers(es: seq<Event>, n: nat): set<nat>
    requires n <= |es|
  {
    set i: nat | i < n && es[i].UserStarted?
  }

  // ------------------------------------------------------------------
  // The machine keeps up with the trace
  // ------------------------------------------------------------------

  lemma {:induction false} TracksSpeech(es: seq<Event>, n: nat)
    requires n <= |es|
    ensures StateAt(es, n).botSpeaking <==> SpeakingAt(es, n)
  {
    if n > 0 {
      TracksSpeech(es, n - 1);
      assert es[n - 1].BotStarted? ==> SpeakingAt(es, n);
      if SpeakingAt(es, n - 1) && !es[n - 1].BotStopped? {
        var i :| 0 <= i < n - 1 && es[i].BotStarted? && forall k :: i < k < n - 1 ==> !es[k].BotStopped?;
        assert forall k :: i < k < n ==> !es[k].BotStopped?;
      }
    }
  }

  lemma StepCounts(s: State, e: Event)
    ensures Step(s, e).vadTriggers == s.vadTriggers + if e.UserStarted? then 1 else 0
    ensures Step(s, e).interruptions == s.interruptions + if e.UserStarted? && s.botSpeaking then 1 else 0
    ensures Step(s, e).turns == s.turns || (e.BotStarted? && s.turnStart.Some?)
  {
  }

  lemma NoneYet(es: seq<Event>)
    ensures Triggers(es, 0) == {} && Interruptions(es, 0) == {}
  {
  }

  lemma OneMore(es: seq<Event>, n: nat)
    requires n < |es|
    ensures |Triggers(es, n + 1)| == |Triggers(es, n)| + if es[n].UserStarted? then 1 else 0
    ensures |Interruptions(es, n + 1)| == |Interruptions(es, n)| +
              if es[n].UserStarted? && SpeakingAt(es, n) then 1 else 0
  {
    hide SpeakingAt;
    var i, t := Interruptions(es, n), Triggers(es, n);
    assert Triggers(es, n + 1) == if es[n].UserStarted? then t + {n} else t;
    assert Interruptions(es, n + 1) == if es[n].UserStarted? && SpeakingAt(es, n) then i + {n} else i;
  }

  /** Interruptions are the user starts while the bot speaks; triggers are all user starts. */
  lemma {:induction false} CountersMeetSpecification(es: seq<Event>, n: nat)
    requires n <= |es|
    ensures StateAt(es, n).interruptions == |Interruptions(es, n)|
    ensures StateAt(es, n).vadTriggers == |Triggers(es, n)|
  {
    hide Step, SpeakingAt, Interruptions, Triggers;
    if n > 0 {
      CountersMeetSpecification(es, n - 1);
      StepCounts(StateAt(es, n - 1), es[n - 1]);
      TracksSpeech(es, n - 1);
      OneMore(es, n - 1);
    } else {
      NoneYet(es);
    }
  }

  /** One more event: the first reading stays, or is the new one. */
  lemma FirstExtends(es: seq<Event>, p: Probe, lo: nat, n: nat, r: Option<real>)
    requires lo <= n < |es| && IsFirst(es, p, lo, n, r)
    ensures IsFirst(es, p, lo, n + 1, OrElse(r, Reading(p, es[n])))
  {
    hide Reading;
    if r.Some? {
      var i :| lo <= i < n && Reading(p, es[i]) == r && forall k :: lo <= k < i ==> Reading(p, es[k]) == None;
      assert lo <= i < n + 1;
    } else if Reading(p, es[n]).Some? {
      assert lo <= n < n + 1 && forall k :: lo <= k < n ==> Reading(p, es[k]) == None;
    }
  }

  lemma SmartExtends(es: seq<Event>, n: nat, r: Option<real>)
    requires n < |es| && IsNewestSmart(es, n, r)
    ensures IsNewestSmart(es, n + 1,
              if es[n].UserStopped? then None else if IsComplete(es[n]) then Some(es[n].e2e) else r)
  {
    if es[n].UserStopped? {
      assert forall i :: 0 <= i < n + 1 && IsComplete(es[i]) ==> i < n < n + 1 && es[n].UserStopped?;
    } else if IsComplete(es[n]) {
      assert 0 <= n < n + 1 && es[n] == SmartTurn(true, es[n].e2e);
    } else if r.Some? {
      var i :| 0 <= i < n && es[i] == SmartTurn(true, r.value)
        && forall k :: i < k < n ==> !es[k].UserStopped? && !IsComplete(es[k]);
      assert 0 <= i < n + 1;
    } else {
      forall i | 0 <= i < n + 1 && IsComplete(es[i]) ensures exists k :: i < k < n + 1 && es[k].UserStopped? {
        var k :| i < k < n && es[k].UserStopped?;
        assert i < k < n + 1;
      }
    }
  }

  /** While a turn is open, the pending fields are the first readings of its window. */
  ghost predicate Pending(s: State, es: seq<Event>, n: nat, u: nat)
    requires n <= |es|
  {
    && OpensTurn(es, u, n)
    && s.turnStart == Some(es[u].at)
    && IsFirst(es, SttProbe, u + 1, n, s.stt)
    && IsFirst(es, LlmProbe, u + 1, n, s.llm)
    && IsFirst(es, TtsProbe, u + 1, n, s.tts)
    && IsFirst(es, SynthesisProbe, u + 1, n, s.ttsStartedAt)
    && IsNewestSmart(es, u, s.pendingSmart)
  }

  ghost predicate Tracks(s: State, es: seq<Event>, n: nat)
    requires n <= |es|
  {
    && (s.inProgress <==> s.turnStart.Some?)
    && IsNewestSmart(es, n, s.lastSmart)
    && (if s.inProgress then exists u: nat :: Pending(s, es, n, u) else forall u: nat :: !OpensTurn(es, u, n))
  }

  lemma StepReads(s: State, e: Event)
    requires s.inProgress && !e.UserStopped? && !e.BotStarted?
    ensures var s' := Step(s, e);
            && s'.turnStart == s.turnStart && s'.pendingSmart == s.pendingSmart
            && s'.stt == OrElse(s.stt, Reading(SttProbe, e))
            && s'.llm == OrElse(s.llm, Reading(LlmProbe, e))
            && s'.tts == OrElse(s.tts, Reading(TtsProbe, e))
            && s'.ttsStartedAt == OrElse(s.ttsStartedAt, Reading(SynthesisProbe, e))
  {
    hide StageOf;
  }

  /** An event that neither stops the user nor starts the bot leaves the window open and extends it. */
  lemma PendingExtends(s: State, es: seq<Event>, n: nat, u: nat)
    requires n < |es| && s.inProgress && Pending(s, es, n, u)
    requires !es[n].UserStopped? && !es[n].BotStarted?
    ensures Pending(Step(s, es[n]), es, n + 1, u)
  {
    hide IsFirst, IsNewestSmart, Step, Reading;
    StepReads(s, es[n]);
    FirstExtends(es, SttProbe, u + 1, n, s.stt);
    FirstExtends(es, LlmProbe, u + 1, n, s.llm);
    FirstExtends(es, TtsProbe, u + 1, n, s.tts);
    FirstExtends(es, SynthesisProbe, u + 1, n, s.ttsStartedAt);
  }

  lemma StepTracks(s: State, es: seq<Event>, n: nat)
    requires n < |es| && Tracks(s, es, n)
    ensures Tracks(Step(s, es[n]), es, n + 1)
  {
    hide IsNewestSmart, StageOf, Pending;
    var m := n + 1;
    SmartExtends(es, n, s.lastSmart);
    if es[n].UserStopped? {
      FreshTurn(s, es, n);
    } else if es[n].BotStarted? {
      assert forall u: nat :: !OpensTurn(es, u, m);
    } else if s.inProgress {
      var u: nat :| Pending(s, es, n, u);
      PendingExtends(s, es, n, u);
    } else {
      assert forall u: nat :: OpensTurn(es, u, m) ==> OpensTurn(es, u, n);
    }
  }

  lemma FreshTurn(s: State, es: seq<Event>, n: nat)
    requires n < |es| && es[n].UserStopped? && IsNewestSmart(es, n, s.lastSmart)
    ensures Pending(Step(s, es[n]), es, n + 1, n)
  {
  }

  lemma {:induction false} StateTracks(es: seq<Event>, n: nat)
    requires n <= |es|
    ensures Tracks(StateAt(es, n), es, n)
  {
    hide Step;
    if n > 0 {
      StateTracks(es, n - 1);
      StepTracks(StateAt(es, n - 1), es, n - 1);
    }
  }

  /** The synthesis start is the first one since the last user stop or bot start, in a turn or not. */
  lemma {:induction false} SynthesisSinceReset(es: seq<Event>, lo: nat, n: nat)
    requires lo <= n <= |es| && (lo == 0 || es[lo - 1].UserStopped? || es[lo - 1].BotStarted?)
    requires forall i :: lo <= i < n ==> !es[i].UserStopped? && !es[i].BotStarted?
    ensures IsFirst(es, SynthesisProbe, lo, n, StateAt(es, n).ttsStartedAt)
  {
    hide StageOf;
    if n > lo {
      SynthesisSinceReset(es, lo, n - 1);
      FirstExtends(es, SynthesisProbe, lo, n - 1, StateAt(es, n - 1).ttsStartedAt);
    }
  }

  /** A reading that arrives while no turn is open is dropped. */
  lemma ReadingsOutsideTurnsAreDropped(es: seq<Event>, n: nat)
    requires n < |es| && es[n].Ttfb? && forall u: nat :: !OpensTurn(es, u, n)
    ensures StateAt(es, n + 1) == StateAt(es, n)
  {
    StateTracks(es, n);
  }

  /** A turn is recorded at event j exactly when j is a bot start that follows a user stop with no bot
      start between; it then describes the window from the last such stop. */
  lemma TurnsMeetSpecification(es: seq<Event>, j: nat)
    requires j < |es|
    ensures var before, after := StateAt(es, j).turns, StateAt(es, j + 1).turns;
            if es[j].BotStarted? && exists u: nat :: OpensTurn(es, u, j)
            then |after| == |before| + 1 && after[..|before|] == before
                 && forall u: nat :: OpensTurn(es, u, j) ==> IsTurn(es, u, j, after[|before|])
            else after == before
  {
    hide Step, OpensTurn, IsTurn;
    StateTracks(es, j);
    var s := StateAt(es, j);
    StepCounts(s, es[j]);
    if es[j].BotStarted? && s.inProgress {
      TurnRecorded(s, es, j);
    }
  }

  lemma TurnRecorded(s: State, es: seq<Event>, j: nat)
    requires j < |es| && es[j].BotStarted? && Tracks(s, es, j) && s.inProgress
    ensures var after := Step(s, es[j]).turns;
            |after| == |s.turns| + 1 && after[..|s.turns|] == s.turns
            && (exists u: nat :: OpensTurn(es, u, j))
            && forall u: nat :: OpensTurn(es, u, j) ==> IsTurn(es, u, j, after[|s.turns|])
  {
    hide IsFirst, IsNewestSmart;
    var u: nat :| Pending(s, es, j, u);
    assert forall v: nat :: OpensTurn(es, v, j) ==> v == u;
    var t := Step(s, es[j]).turns[|s.turns|];
    assert IsTts(es, u, j, t.tts);
  }

  lemma NothingFirst(es: seq<Event>, p: Probe)
    ensures IsFirst(es, p, 0, 0, None)
  {
  }

  lemma StepLatencies(s: State, e: Event)
    requires |s.latencies| == |s.turns| && forall k :: 0 <= k < |s.turns| ==> s.latencies[k] == s.turns[k].total
    ensures var s' := Step(s, e);
            && |s'.latencies| == |s'.turns|
            && (forall k :: 0 <= k < |s'.turns| ==> s'.latencies[k] == s'.turns[k].total)
            && s'.firstBotAudio == OrElse(s.firstBotAudio, Reading(AudioProbe, e))
            && s.turns <= s'.turns
  {
    hide StageOf;
  }

  /** The latency list repeats the totals of the turns; the first bot audio is the first bot start. */
  lemma {:induction false} LatenciesAreTotals(es: seq<Event>, n: nat)
    requires n <= |es|
    ensures var s := StateAt(es, n);
            |s.latencies| == |s.turns| && forall k :: 0 <= k < |s.turns| ==> s.latencies[k] == s.turns[k].total
    ensures IsFirst(es, AudioProbe, 0, n, StateAt(es, n).firstBotAudio)
  {
    hide Step, IsFirst;
    if n == 0 {
      NothingFirst(es, AudioProbe);
    } else {
      LatenciesAreTotals(es, n - 1);
      StepLatencies(StateAt(es, n - 1), es[n - 1]);
      FirstExtends(es, AudioProbe, 0, n - 1, StateAt(es, n - 1).firstBotAudio);
    }
  }

  /** A turn, once recorded, never changes. */
  lemma {:induction false} TurnsAreAppendOnly(es: seq<Event>, m: nat, n: nat)
    requires m <= n <= |es|
    ensures StateAt(es, m).turns <= StateAt(es, n).turns
  {
    hide Step;
    if m < n {
      TurnsAreAppendOnly(es, m, n - 1);
      LatenciesAreTotals(es, n - 1);
      StepLatencies(StateAt(es, n - 1), es[n - 1]);
    }
  }

  // ------------------------------------------------------------------
  // The object
  // ------------------------------------------------------------------

  function AfterItems(s: State, items: seq<Event>): State {
    if items == [] then s else Step(AfterItems(s, items[..|items| - 1]), items[|items| - 1])
  }

  /** A metrics frame on a trace is its items on the trace, so what holds on every trace holds with frames. */
  lemma {:induction false} FrameExtendsTrace(es: seq<Event>, items: seq<Event>)
    ensures AfterItems(StateAt(es, |es|), items) == StateAt(es + items, |es| + |items|)
  {
    if items == [] {
      assert es + items == es;
    } else {
      var n := |items| - 1;
      FrameExtendsTrace(es, items[..n]);
      StatePrefix(es + items[..n], es + items, |es| + n);
      assert (es + items)[|es| + n] == items[n];
    }
  }

  lemma FramesExtendTraces(s: State, items: seq<Event>)
    ensures forall es: seq<Event> :: s == StateAt(es, |es|) ==>
              AfterItems(s, items) == StateAt(es + items, |es| + |items|)
  {
    forall es: seq<Event> | s == StateAt(es, |es|)
      ensures AfterItems(s, items) == StateAt(es + items, |es| + |items|)
    {
      FrameExtendsTrace(es, items);
    }
  }

  lemma {:induction false} StatePrefix(es: seq<Event>, fs: seq<Event>, n: nat)
    requires n <= |es| <= |fs| && fs[..|es|] == es
    ensures StateAt(es, n) == StateAt(fs, n)
  {
    if n > 0 {
      StatePrefix(es, fs, n - 1);
      assert fs[..|es|][n - 1] == fs[n - 1];
    }
  }

  /** Which service a TTFB item is read for, by the words in its processor's name. */
  lemma StageMeans(p: string)
    ensures StageOf(p) == Stt <==> Mentions(p, "deepgram") || Mentions(p, "stt")
    ensures StageOf(p) == Llm <==>
              !Mentions(p, "deepgram") && !Mentions(p, "stt") && (Mentions(p, "openai") || Mentions(p, "llm"))
    ensures StageOf(p) == NoStage <==>
              && !Mentions(p, "deepgram") && !Mentions(p, "stt") && !Mentions(p, "openai") && !Mentions(p, "llm")
              && !Mentions(p, "elevenlabs") && !Mentions(p, "tts")
  {
    ContainsMeans(p, "deepgram");
    ContainsMeans(p, "stt");
    ContainsMeans(p, "openai");
    ContainsMeans(p, "llm");
    ContainsMeans(p, "elevenlabs");
    ContainsMeans(p, "tts");
  }

  ghost predicate Mentions(p: string, word: string) {
    exists before, after :: p == before + word + after
  }

  lemma ContainsMeans(p: string, word: string)
    ensures Contains(p, word) <==> Mentions(p, word)
  {
    if i :| 0 <= i <= |p| && word <= p[i..] {
      assert p == p[..i] + word + p[i..][|word|..];
    }
    if before, after :| p == before + word + after {
      assert p[|before|..] == word + after;
    }
  }

  class CallMetrics {
    var turnStart: Option<real>
    var inProgress: bool
    var botSpeaking: bool
    var stt: Option<real>
    var llm: Option<real>
    var tts: Option<real>
    var ttsStartedAt: Option<real>
    var lastSmart: Option<real>
    var pendingSmart: Option<real>
    var interruptions: nat
    var vadTriggers: nat
    var firstBotAudio: Option<real>
    var turns: seq<Turn>
    var latencies: seq<real>

    ghost function View(): State
      reads this
    {
      State(turnStart, inProgress, botSpeaking, stt, llm, tts, ttsStartedAt, lastSmart, pendingSmart,
            interruptions, vadTriggers, firstBotAudio, turns, latencies)
    }

    constructor ()
      ensures View() == INITIAL
    {
      turnStart, inProgress, botSpeaking := None, false, false;
      stt, llm, tts, ttsStartedAt := None, None, None, None;
      lastSmart, pendingSmart, firstBotAudio := None, None, None;
      interruptions, vadTriggers, turns, latencies := 0, 0, [], [];
    }

    method UserStartedSpeaking()
      modifies this
      ensures View() == Step(old(View()), UserStarted)
    {
      vadTriggers := vadTriggers + 1;
      if botSpeaking {
        interruptions := interruptions + 1;
      }
    }

    method TtsBegan(now: real)
      modifies this
      ensures View() == Step(old(View()), TtsStarted(now))
    {
      if ttsStartedAt == None {
        ttsStartedAt := Some(now);
      }
    }

    method UserStoppedSpeaking(now: real)
      modifies this
      ensures View() == Step(old(View()), UserStopped(now))
    {
      hide OnUserStarted, OnBotStarted, OnTtfb;
      turnStart := Some(now);
      inProgress := true;
      stt, llm, tts := None, None, None;
      ttsStartedAt := None;
      pendingSmart := lastSmart;
      lastSmart := None;
    }

    /** The part of a bot start that does not depend on a turn; the result is the synthesis delay. */
    method MarkBotAudio(now: real) returns (timing: Option<real>)
      modifies `botSpeaking, `firstBotAudio, `ttsStartedAt
      ensures botSpeaking && ttsStartedAt == None && firstBotAudio == OrElse(old(firstBotAudio), Some(now))
      ensures timing == if old(ttsStartedAt).Some? then Some((now - old(ttsStartedAt).value) * 1000.0) else None
    {
      botSpeaking := true;
      if firstBotAudio == None {
        firstBotAudio := Some(now);
      }
      timing := None;
      if ttsStartedAt.Some? {
        timing := Some((now - ttsStartedAt.value) * 1000.0);
        ttsStartedAt := None;
      }
    }

    method BotStartedSpeaking(now: real) returns (turn: Option<Turn>)
      modifies this
      ensures View() == Step(old(View()), BotStarted(now))
      ensures turns == old(turns) + (if turn.Some? then [turn.value] else [])
    {
      var timing := MarkBotAudio(now);
      if turnStart == None {
        inProgress := false;
        return None;
      }
      var total := (now - turnStart.value) * 1000.0;
      latencies := latencies + [total];
      var ms := if tts.Some? then tts else timing;
      turn := Some(Turn(total, stt, llm, ms, pendingSmart));
      turns := turns + [turn.value];
      turnStart := None;
      inProgress := false;
    }

    method BotStoppedSpeaking()
      modifies this
      ensures View() == Step(old(View()), BotStopped)
    {
      botSpeaking := false;
    }

    method OnItem(item: Event)
      requires item.Ttfb? || item.SmartTurn? || item.OtherItem?
      modifies this
      ensures View() == Step(old(View()), item)
    {
      if item.Ttfb? {
        var p := item.processor;
        if Contains(p, "deepgram") || Contains(p, "stt") {
          if inProgress && stt == None { stt := Some(item.ms); }
        } else if Contains(p, "openai") || Contains(p, "llm") {
          if inProgress && llm == None { llm := Some(item.ms); }
        } else if Contains(p, "elevenlabs") || Contains(p, "tts") {
          if inProgress && tts == None { tts := Some(item.ms); }
        }
      } else if item.SmartTurn? {
        if item.complete {
          lastSmart := Some(item.e2e);
        }
      }
    }

    /** The items take effect up to the first one that raises, or all of them. */
    method OnMetricsFrame(items: seq<Event>, raises: Option<nat>)
      requires forall i :: i in items ==> i.Ttfb? || i.SmartTurn? || i.OtherItem?
      modifies this
      ensures var read := if raises.Some? && raises.value < |items| then items[..raises.value] else items;
              && View() == AfterItems(old(View()), read)
              && forall es: seq<Event> :: old(View()) == StateAt(es, |es|) ==>
                   View() == StateAt(es + read, |es| + |read|)
    {
      hide StateAt, Step;
      FramesExtendTraces(View(), if raises.Some? && raises.value < |items| then items[..raises.value] else items);
      var i := 0;
      while i < |items|
        invariant 0 <= i <= |items| && (raises.Some? ==> i <= raises.value || raises.value >= |items|)
        invariant View() == AfterItems(old(View()), items[..i])
      {
        if raises == Some(i) {
          return;
        }
        assert items[..i + 1][..i] == items[..i];
        OnItem(items[i]);
        i := i + 1;
      }
      assert items[..i] == items;
    }
  }
}
