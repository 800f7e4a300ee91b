/** What leads where: the state machine's edges, what each of them tells the other threads, and what a run must contain
    to get somewhere. */
module Transitions {
  import opened AppModel

  // ---- One event ----

  /** Each state is where the machine is after an event exactly in these cases. */
  lemma EntersExactly(s: System)
    requires s.appQueue != []
    ensures var e := s.appQueue[0]; var t := Apply(s, AppHandles);
            && (t.state == InHardError <==>
                  s.state == InHardError || e == if s.state == InStartup then ServicesFailed else HardError)
            && (t.state == InSoftError <==>
                  || (s.state == InStartup && e == NetworkJoinFailed)
                  || ((s.state == InListening || s.state == InDispatching) && e == SoftError)
                  || (s.state == InSoftError && e != NetworkJoined && e != HardError))
            && (t.state == InListening <==>
                  || ((s.state == InStartup || s.state == InSoftError) && e == NetworkJoined)
                  || (s.state == InDispatching && e == DispatchFinished)
                  || (s.state == InListening && e != DispatchStarted && e != SoftError && e != HardError))
            && (t.state == InDispatching <==>
                  || (s.state == InListening && e == DispatchStarted)
                  || (s.state == InDispatching && e != DispatchFinished && e != SoftError && e != HardError))
  {
    var x := s.(appQueue := s.appQueue[1..]);
    forall y: System, id: StateId ensures Moved(y, id).state == id {
    }
    CommsKept(x, JoinNetwork);
    hide Moved, PostComms;
  }

  lemma CommsKept(s: System, e: CommsEvent)
    ensures PostComms(s, e).state == s.state
  {
  }

  /** What the comms thread is told when the machine goes from one state to another on an event. */
  function Told(from: StateId, to: StateId, e: AppEvent): seq<CommsEvent> {
    if from == to then if from == InSoftError && e == RetryTimeout then [JoinNetwork] else []
    else if to == InListening then [StartDispatch]
    else if to == InHardError then [StopDispatch]
    else []
  }

  /** The comms thread has been told this, and nothing else about it has changed. */
  predicate CommsTold(s: System, t: System, told: seq<CommsEvent>) {
    && t.commsQueue == (if s.commsRegistered && |s.commsQueue| < 20 then s.commsQueue + told else s.commsQueue)
    && t.comms == s.comms && t.dispatchEnabled == s.dispatchEnabled && t.dispatchTimer == s.dispatchTimer
    && t.cycles == s.cycles && t.commsRegistered == s.commsRegistered && t.appQueue == s.appQueue
  }

  lemma MovedTells(s: System, id: StateId)
    requires id != InStartup && id != s.state
    ensures var t := Moved(s, id);
            && t.state == id
            && CommsTold(s, t, Told(s.state, id, SoftError))
            && (t.retryArmed <==> id == InSoftError || (s.retryArmed && s.state != InSoftError))
  {
    assert s.commsQueue + [] == s.commsQueue;
  }

  /** From `s`, with the event already taken off the queue, to `t`: what the comms thread is told, what becomes of the
      retry timer, and that in HARD_ERROR, and wherever the event has no meaning, nothing at all happens. */
  predicate Tells(s: System, t: System, e: AppEvent) {
    && CommsTold(s, t, Told(s.state, t.state, e))
    && (t.retryArmed <==>
          || (t.state == InSoftError && (s.state != InSoftError || s.retryArmed || e == NetworkJoinFailed))
          || (t.state != InSoftError && s.state != InSoftError && s.retryArmed))
    && (s.state == InHardError || (s.state == t.state && s.state != InSoftError) ==> t == s)
  }

  lemma TellsExactly(s: System)
    requires s.appQueue != []
    ensures Tells(s.(appQueue := s.appQueue[1..]), Apply(s, AppHandles), s.appQueue[0])
  {
    var x, e := s.(appQueue := s.appQueue[1..]), s.appQueue[0];
    match s.state
    case InStartup => StartupTells(x, e);
    case InListening => ListeningTells(x, e);
    case InDispatching => DispatchingTells(x, e);
    case InSoftError => SoftErrorTells(x, e);
    case InHardError => NothingTold(x);
  }

  lemma NothingTold(s: System)
    ensures CommsTold(s, s, [])
  {
    assert s.commsQueue + [] == s.commsQueue;
  }

  lemma StartupTells(s: System, e: AppEvent)
    requires s.state == InStartup
    ensures Tells(s, Handled(s, e), e)
  {
    NothingTold(s);
    MovedTells(s, InListening);
    MovedTells(s, InSoftError);
    MovedTells(s, InHardError);
    hide Moved;
  }

  lemma ListeningTells(s: System, e: AppEvent)
    requires s.state == InListening
    ensures Tells(s, Handled(s, e), e)
  {
    NothingTold(s);
    MovedTells(s, InDispatching);
    MovedTells(s, InSoftError);
    MovedTells(s, InHardError);
    hide Moved;
  }

  lemma DispatchingTells(s: System, e: AppEvent)
    requires s.state == InDispatching
    ensures Tells(s, Handled(s, e), e)
  {
    NothingTold(s);
    MovedTells(s, InListening);
    MovedTells(s, InSoftError);
    MovedTells(s, InHardError);
    hide Moved;
  }

  lemma SoftErrorTells(s: System, e: AppEvent)
    requires s.state == InSoftError
    ensures Tells(s, Handled(s, e), e)
  {
    NothingTold(s);
    MovedTells(ResetRetry(s), InListening);
    MovedTells(s, InHardError);
    hide Moved;
  }

  /** What finishing a command does: a cycle runs exactly when one is asked for while dispatching is enabled, only the
      two commands enable and disable it, and only a join is answered, with what became of it. */
  lemma FinishesExactly(s: System, joins: bool)
    requires s.comms.Handling?
    ensures var e := s.comms.event; var t := Apply(s, CommsFinishes(joins));
            && t.cycles == s.cycles + (if (e == DispatchDue || e == DispatchNow) && s.dispatchEnabled then 1 else 0)
            && (t.dispatchEnabled <==> e == StartDispatch || (s.dispatchEnabled && e != StopDispatch))
            && (t.appQueue != s.appQueue <==> e == JoinNetwork && |s.appQueue| < 20)
            && (t.appQueue != s.appQueue ==>
                  t.appQueue == s.appQueue + if joins then [NetworkJoined] else [NetworkJoinFailed])
            && t.comms == Nothing && t.state == s.state && t.commsQueue == s.commsQueue
  {
  }

  // ---- Whole runs ----

  /** No join has succeeded, and nothing has happened that takes one. */
  predicate NeverJoined(s: System) {
    && s.state != InListening && s.state != InDispatching
    && NetworkJoined !in s.appQueue
    && StartDispatch !in s.commsQueue && s.comms != Handling(StartDispatch)
    && !s.dispatchEnabled && !s.dispatchTimer && s.cycles == 0
  }

  lemma StepNeverJoins(s: System, step: Step)
    requires Enabled(s, step) && NeverJoined(s) && step != CommsFinishes(true)
    ensures NeverJoined(Apply(s, step))
  {
    if step.AppHandles? {
      EntersExactly(s);
      TellsExactly(s);
      HandlingTakesOne(s);
      hide Apply;
    }
  }

  lemma HandlingTakesOne(s: System)
    requires s.appQueue != []
    ensures Apply(s, AppHandles).appQueue == s.appQueue[1..]
  {
    TellsExactly(s);
    hide Apply;
  }

  lemma {:induction false} RunNeverJoins(s: System, steps: seq<Step>)
    requires Possible(s, steps) && NeverJoined(s) && CommsFinishes(true) !in steps
    ensures NeverJoined(Run(s, steps))
    decreases steps
  {
    hide NeverJoined, Apply, Enabled;
    if steps != [] {
      StepNeverJoins(s, steps[0]);
      RunNeverJoins(Apply(s, steps[0]), steps[1..]);
    }
  }

  /** Until the link has answered a join with success, the device is in no joined state, dispatching is off and nothing
      is sent, whatever else happens. */
  lemma NothingBeforeASuccessfulJoin(registered: bool, steps: seq<Step>)
    requires Possible(Init(registered), steps) && CommsFinishes(true) !in steps
    ensures var s := Run(Init(registered), steps);
            && s.state != InListening && s.state != InDispatching
            && NetworkJoined !in s.appQueue && !s.dispatchEnabled && s.cycles == 0
  {
    RunNeverJoins(Init(registered), steps);
  }

  predicate NeverFailed(s: System) {
    && s.state != InSoftError && NetworkJoinFailed !in s.appQueue && SoftError !in s.appQueue
  }

  lemma StepNeverFails(s: System, step: Step)
    requires Enabled(s, step) && NeverFailed(s) && step != CommsFinishes(false) && step != Outside(SoftError)
    ensures NeverFailed(Apply(s, step))
  {
    if step.AppHandles? {
      EntersExactly(s);
      HandlingTakesOne(s);
      hide Apply;
    }
  }

  lemma {:induction false} RunNeverFails(s: System, steps: seq<Step>)
    requires Possible(s, steps) && NeverFailed(s)
    requires CommsFinishes(false) !in steps && Outside(SoftError) !in steps
    ensures NeverFailed(Run(s, steps))
    decreases steps
  {
    hide NeverFailed, Apply, Enabled;
    if steps != [] {
      StepNeverFails(s, steps[0]);
      RunNeverFails(Apply(s, steps[0]), steps[1..]);
    }
  }

  /** And as long as no join fails and nobody posts a soft error, there is no SOFT_ERROR. */
  lemma NoSoftErrorWithoutFailure(registered: bool, steps: seq<Step>)
    requires Possible(Init(registered), steps)
    requires CommsFinishes(false) !in steps && Outside(SoftError) !in steps
    ensures var s := Run(Init(registered), steps); s.state != InSoftError && NetworkJoinFailed !in s.appQueue
  {
    RunNeverFails(Init(registered), steps);
  }

  predicate NeverHard(s: System) {
    s.state != InHardError && ServicesFailed !in s.appQueue && HardError !in s.appQueue
  }

  lemma StepNeverHard(s: System, step: Step)
    requires Enabled(s, step) && NeverHard(s) && step != Outside(ServicesFailed) && step != Outside(HardError)
    ensures NeverHard(Apply(s, step))
  {
    if step.AppHandles? {
      EntersExactly(s);
      HandlingTakesOne(s);
      hide Apply;
    }
  }

  lemma {:induction false} RunNeverHard(s: System, steps: seq<Step>)
    requires Possible(s, steps) && NeverHard(s)
    requires Outside(ServicesFailed) !in steps && Outside(HardError) !in steps
    ensures NeverHard(Run(s, steps))
    decreases steps
  {
    hide NeverHard, Apply, Enabled;
    if steps != [] {
      StepNeverHard(s, steps[0]);
      RunNeverHard(Apply(s, steps[0]), steps[1..]);
    }
  }

  /** No number of failed joins is a reason to stop: without failed services and without a hard error posted from
      outside the device never gets to HARD_ERROR. */
  lemma NoHardErrorWithoutCause(registered: bool, steps: seq<Step>)
    requires Possible(Init(registered), steps)
    requires Outside(ServicesFailed) !in steps && Outside(HardError) !in steps
    ensures Run(Init(registered), steps).state != InHardError
  {
    RunNeverHard(Init(registered), steps);
  }

  // ---- Where an answered join leads ----

  /** The answer to a join, or in SOFT_ERROR the retry's time-out, is queued behind nothing that stops the device. */
  predicate Answered(s: System, e: AppEvent) {
    && (s.state == InStartup || s.state == InSoftError)
    && e in s.appQueue
    && (e == NetworkJoined || e == NetworkJoinFailed || (e == RetryTimeout && s.state == InSoftError))
    && ServicesFailed !in s.appQueue && HardError !in s.appQueue
    && OneAttempt(s) && s.joinsLost == 0
  }

  /** Nothing else in the queue is an answer, so what is ahead of it has no meaning. */
  lemma AheadIsIgnored(s: System, e: AppEvent)
    requires Answered(s, e) && s.appQueue[0] != e
    ensures var t := Apply(s, AppHandles);
            && Answered(t, e) && t.appQueue == s.appQueue[1..]
            && t.commsQueue == s.commsQueue
  {
    var head := s.appQueue[0];
    CountsMember(s.appQueue[1..], e);
    assert !IsOutcome(head) && !head.RetryTimeout?;
    EntersExactly(s);
    TellsExactly(s);
    StepKeepsAttempt(s, AppHandles);
    assert Apply(s, AppHandles) == s.(appQueue := s.appQueue[1..]);
    hide Apply;
  }

  lemma {:induction false} CountsMember(q: seq<AppEvent>, e: AppEvent)
    requires e in q && (IsOutcome(e) || e.RetryTimeout?)
    ensures CountAnswers(q) >= 1
  {
    if q[0] != e {
      CountsMember(q[1..], e);
    }
  }

  /** The application handles its queue up to and including the answer. */
  lemma {:induction false} AnswerIsHandled(s: System, e: AppEvent) returns (steps: seq<Step>)
    requires Answered(s, e)
    ensures Possible(s, steps)
    ensures var t := Run(s, steps);
            && t.state == (if e == NetworkJoined then InListening else InSoftError)
            && (e == RetryTimeout && s.commsRegistered && |s.commsQueue| < 20 ==> JoinNetwork in t.commsQueue)
            && (e == NetworkJoined && s.commsRegistered && |s.commsQueue| < 20 ==> StartDispatch in t.commsQueue)
            && (e == NetworkJoinFailed ==> t.retryArmed)
    decreases |s.appQueue|
  {
    var t := Apply(s, AppHandles);
    var rest: seq<Step> := [];
    if s.appQueue[0] == e {
      EntersExactly(s);
      TellsExactly(s);
    } else {
      AheadIsIgnored(s, e);
      TellsExactly(s);
      rest := AnswerIsHandled(t, e);
    }
    steps := [AppHandles] + rest;
    assert steps[1..] == rest;
    hide Apply;
  }

  /** From any reachable state in which a join is being made and nothing on its way stops the device: answered with
      success it leads to LISTENING and the command to dispatch, answered with failure to SOFT_ERROR and an armed
      retry, given room for the answer. */
  lemma AnswerLeads(registered: bool, before: seq<Step>, joins: bool) returns (steps: seq<Step>)
    requires Possible(Init(registered), before)
    requires var s := Run(Init(registered), before);
             && s.comms == Handling(JoinNetwork) && s.state != InHardError && |s.appQueue| < 20
             && ServicesFailed !in s.appQueue && HardError !in s.appQueue
    ensures var s := Run(Init(registered), before);
            && Possible(s, steps)
            && var t := Run(s, steps);
               if joins then t.state == InListening && (|s.commsQueue| < 20 ==> StartDispatch in t.commsQueue)
               else t.state == InSoftError && t.retryArmed
  {
    var s := Run(Init(registered), before);
    var e := if joins then NetworkJoined else NetworkJoinFailed;
    JoinAttempts(registered, before);
    hide Attempts;
    assert s.commsRegistered by {
      InitIsOrderly(registered);
      RunStaysOrderly(Init(registered), before);
    }
    var t := Apply(s, CommsFinishes(joins));
    FinishesExactly(s, joins);
    StepKeepsAttempt(s, CommsFinishes(joins));
    StepKeepsLosses(s, CommsFinishes(joins));
    var rest := AnswerIsHandled(t, e);
    steps := [CommsFinishes(joins)] + rest;
    assert steps[1..] == rest;
  }

  /** And from any reachable state with the retry armed and nothing queued that stops the device, its time-out leads to
      the next join, given room for both. */
  lemma ArmedRetryLeads(registered: bool, before: seq<Step>) returns (steps: seq<Step>)
    requires Possible(Init(registered), before)
    requires var s := Run(Init(registered), before);
             && s.retryArmed && s.state == InSoftError && |s.appQueue| < 20 && HardError !in s.appQueue
             && ServicesFailed !in s.appQueue
    ensures var s := Run(Init(registered), before);
            && Possible(s, steps)
            && (s.commsRegistered && |s.commsQueue| < 20 ==> JoinNetwork in Run(s, steps).commsQueue)
  {
    var s := Run(Init(registered), before);
    JoinAttempts(registered, before);
    var t := Apply(s, RetryFires);
    assert t == s.(retryArmed := false, appQueue := s.appQueue + [RetryTimeout]);
    StepKeepsAttempt(s, RetryFires);
    assert s.joinsLost == 0 by { ArmedIsNotLost(s); }
    var rest := AnswerIsHandled(t, RetryTimeout);
    steps := [RetryFires] + rest;
    assert steps[1..] == rest;
  }

  lemma ArmedIsNotLost(s: System)
    requires OneAttempt(s) && s.state == InSoftError && s.retryArmed
    ensures s.joinsLost == 0
  {
  }
}
