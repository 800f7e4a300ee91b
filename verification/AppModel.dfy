/** The application state machine, the comms port it commands and the two timers, as one system of steps. A step
    handles one event, fires one timer or posts one event from outside; steps of different threads interleave. */
module AppModel {
  import opened Words
  import opened ActiveObject

  const SOFT_ERROR_RETRY_MS: uint32 := 30_000
  const SOFT_ERROR_RETRY_MAX_MS: uint32 := 900_000

  datatype AppEvent =
    | ServicesReady | ServicesFailed
    | NetworkJoined | NetworkJoinFailed
    | DispatchStarted | DispatchFinished
    | SoftError | HardError
    | RetryTimeout

  datatype CommsEvent = JoinNetwork | DispatchDue | DispatchNow | StartDispatch | StopDispatch

  datatype ScanEvent = StartScan | StopScan

  datatype StateId = InStartup | InListening | InDispatching | InSoftError | InHardError

  datatype Idle = Nothing | Handling(event: CommsEvent)

  datatype System = System(
    state: StateId,
    appQueue: seq<AppEvent>,
    commsQueue: seq<CommsEvent>,
    commsRegistered: bool,      // whether the comms port is in the registry
    scanPosts: seq<ScanEvent>,  // everything ever posted to the acquisition port
    comms: Idle,                // what the comms thread has taken and not finished
    retryDelay: uint32,
    retryArmed: bool,
    delays: seq<uint32>,        // the delays armed since the last reset
    dispatchEnabled: bool,
    dispatchTimer: bool,
    cycles: nat,                // dispatch cycles begun
    joinsLost: nat)             // join commands, join outcomes and retry time-outs that found no room

  predicate IsOutcome(e: AppEvent) {
    e.NetworkJoined? || e.NetworkJoinFailed?
  }

  function PostApp(s: System, e: AppEvent): System {
    if |s.appQueue| < QUEUE_LENGTH then s.(appQueue := s.appQueue + [e])
    else if IsOutcome(e) || e.RetryTimeout? then s.(joinsLost := s.joinsLost + 1)
    else s
  }

  function PostComms(s: System, e: CommsEvent): System {
    if s.commsRegistered && |s.commsQueue| < QUEUE_LENGTH then s.(commsQueue := s.commsQueue + [e])
    else if e.JoinNetwork? then s.(joinsLost := s.joinsLost + 1)
    else s
  }

  function NextDelay(delay: uint32): uint32 {
    if delay > SOFT_ERROR_RETRY_MAX_MS / 2 then SOFT_ERROR_RETRY_MAX_MS else delay * 2
  }

  function ScheduleRetry(s: System): System {
    s.(retryArmed := true, delays := s.delays + [s.retryDelay], retryDelay := NextDelay(s.retryDelay))
  }

  function ResetRetry(s: System): System {
    s.(retryDelay := SOFT_ERROR_RETRY_MS, delays := [])
  }

  function Entered(s: System, id: StateId): System {
    match id
    case InStartup => PostComms(s.(scanPosts := s.scanPosts + [StartScan]), JoinNetwork)
    case InListening => PostComms(s, StartDispatch)
    case InDispatching => s
    case InSoftError => ScheduleRetry(s)
    case InHardError => PostComms(s.(scanPosts := s.scanPosts + [StopScan]), StopDispatch)
  }

  function Exited(s: System): System {
    if s.state == InSoftError then s.(retryArmed := false) else s
  }

  function Moved(s: System, id: StateId): System {
    Entered(Exited(s).(state := id), id)
  }

  /** What the current state does with an event. */
  function Handled(s: System, e: AppEvent): System {
    match s.state
    case InStartup =>
      (match e
       case NetworkJoined => Moved(s, InListening)
       case NetworkJoinFailed => Moved(s, InSoftError)
       case ServicesFailed => Moved(s, InHardError)
       case _ => s)
    case InListening =>
      (match e
       case DispatchStarted => Moved(s, InDispatching)
       case SoftError => Moved(s, InSoftError)
       case HardError => Moved(s, InHardError)
       case _ => s)
    case InDispatching =>
      (match e
       case DispatchFinished => Moved(s, InListening)
       case SoftError => Moved(s, InSoftError)
       case HardError => Moved(s, InHardError)
       case _ => s)
    case InSoftError =>
      (match e
       case RetryTimeout => PostComms(s, JoinNetwork)
       case NetworkJoinFailed => ScheduleRetry(s)
       case NetworkJoined => Moved(ResetRetry(s), InListening)
       case HardError => Moved(s, InHardError)
       case _ => s)
    case InHardError => s
  }

  /** The shapes an application step takes. */
  lemma HandledIs(s: System, e: AppEvent)
    ensures var t := Handled(s, e);
            || t == s
            || (s.state == InSoftError
                && (t == PostComms(s, JoinNetwork) || t == ScheduleRetry(s) || t == Moved(ResetRetry(s), InListening)))
            || (s.state != InSoftError && s.state != InHardError
                && (t == Moved(s, InListening) || t == Moved(s, InDispatching) || t == Moved(s, InSoftError)))
            || (s.state != InHardError && t == Moved(s, InHardError))
  {
    hide Moved, PostComms, ScheduleRetry, ResetRetry;
  }

  /** What the comms port does with an event; `joins` is the answer of the link, if it is asked to connect. */
  function Executed(s: System, e: CommsEvent, joins: bool): System {
    match e
    case JoinNetwork => PostApp(s, if joins then NetworkJoined else NetworkJoinFailed)
    case StartDispatch => s.(dispatchEnabled := true, dispatchTimer := true)
    case StopDispatch => s.(dispatchEnabled := false, dispatchTimer := false)
    case _ => if s.dispatchEnabled then s.(cycles := s.cycles + 1) else s
  }

  datatype Step =
    | AppHandles
    | CommsTakes
    | CommsFinishes(joins: bool)
    | RetryFires
    | DispatchFires
    | Outside(event: AppEvent)  // posted by nothing in the machine itself
    | AskedToDispatch

  predicate FromOutside(e: AppEvent) {
    !IsOutcome(e) && e != RetryTimeout
  }

  predicate Enabled(s: System, step: Step) {
    match step
    case AppHandles => s.appQueue != []
    case CommsTakes => s.comms == Nothing && s.commsQueue != []
    case CommsFinishes(_) => s.comms != Nothing
    case RetryFires => s.retryArmed
    case DispatchFires => s.dispatchTimer
    case Outside(e) => FromOutside(e)
    case AskedToDispatch => true
  }

  function Apply(s: System, step: Step): System
    requires Enabled(s, step)
  {
    match step
    case AppHandles => Handled(s.(appQueue := s.appQueue[1..]), s.appQueue[0])
    case CommsTakes => s.(comms := Handling(s.commsQueue[0]), commsQueue := s.commsQueue[1..])
    case CommsFinishes(joins) => Executed(s.(comms := Nothing), s.comms.event, joins)
    case RetryFires => PostApp(s.(retryArmed := false), RetryTimeout)
    case DispatchFires => PostComms(s, DispatchDue)
    case Outside(e) => PostApp(s, e)
    case AskedToDispatch => PostComms(s, DispatchNow)
  }

  /** Before the machine is started: nothing posted, nothing armed. */
  function Off(commsRegistered: bool): System {
    System(InStartup, [], [], commsRegistered, [], Nothing, SOFT_ERROR_RETRY_MS, false, [], false, false, 0, 0)
  }

  /** Starting the machine enters the first state. */
  function Init(commsRegistered: bool): System {
    Entered(Off(commsRegistered), InStartup)
  }

  ghost predicate Possible(s: System, steps: seq<Step>)
    decreases steps
  {
    steps == [] || (Enabled(s, steps[0]) && Possible(Apply(s, steps[0]), steps[1..]))
  }

  ghost function Run(s: System, steps: seq<Step>): System
    requires Possible(s, steps)
    decreases steps
  {
    if steps == [] then s else Run(Apply(s, steps[0]), steps[1..])
  }

  // ---- Where the join attempt is ----

  function CountJoins(q: seq<CommsEvent>): nat {
    if q == [] then 0 else CountJoins(q[1..]) + if q[0].JoinNetwork? then 1 else 0
  }

  /** Outcomes and time-outs. */
  function CountAnswers(q: seq<AppEvent>): nat {
    if q == [] then 0 else CountAnswers(q[1..]) + if IsOutcome(q[0]) || q[0].RetryTimeout? then 1 else 0
  }

  function AtJoin(i: Idle): nat {
    if i == Handling(JoinNetwork) then 1 else 0
  }

  /** How many join attempts are somewhere on their way: commanded, being made, answered, or waiting for the
      retry timer or its event. */
  function Attempts(s: System): nat {
    CountJoins(s.commsQueue) + AtJoin(s.comms) + CountAnswers(s.appQueue) + if s.retryArmed then 1 else 0
  }

  /** Un-joined states have one attempt, joined states none, unless the one there was has been lost. */
  predicate OneAttempt(s: System) {
    match s.state
    case InStartup => Attempts(s) + s.joinsLost == 1 && !s.retryArmed && RetryTimeout !in s.appQueue
    case InSoftError => Attempts(s) + s.joinsLost == 1
    case InListening => Attempts(s) + s.joinsLost == 0
    case InDispatching => Attempts(s) + s.joinsLost == 0
    case InHardError => Attempts(s) + s.joinsLost <= 1 && !s.retryArmed
  }

  lemma {:induction false} JoinsOfPair(q: seq<CommsEvent>, e: CommsEvent)
    ensures CountJoins(q + [e]) == CountJoins(q) + if e.JoinNetwork? then 1 else 0
  {
    if q == [] {
      assert [e][1..] == [];
    } else {
      JoinsOfPair(q[1..], e);
      assert (q + [e])[1..] == q[1..] + [e];
    }
  }

  lemma {:induction false} AnswersOfPair(q: seq<AppEvent>, e: AppEvent)
    ensures CountAnswers(q + [e]) == CountAnswers(q) + if IsOutcome(e) || e.RetryTimeout? then 1 else 0
  {
    if q == [] {
      assert [e][1..] == [];
    } else {
      AnswersOfPair(q[1..], e);
      assert (q + [e])[1..] == q[1..] + [e];
    }
  }

  /** Posting an attempt's event adds the attempt or records its loss. */
  lemma PostAppKeepsCount(s: System, a: AppEvent)
    ensures var t := PostApp(s, a);
            Attempts(t) + t.joinsLost == Attempts(s) + s.joinsLost + if IsOutcome(a) || a.RetryTimeout? then 1 else 0
  {
    AnswersOfPair(s.appQueue, a);
  }

  lemma PostCommsKeepsCount(s: System, c: CommsEvent)
    ensures var t := PostComms(s, c);
            Attempts(t) + t.joinsLost == Attempts(s) + s.joinsLost + if c.JoinNetwork? then 1 else 0
  {
    JoinsOfPair(s.commsQueue, c);
  }

  lemma EnteredKeepsCount(s: System, id: StateId)
    requires !s.retryArmed
    ensures var t := Entered(s, id);
            Attempts(t) + t.joinsLost
              == Attempts(s) + s.joinsLost + if id == InStartup || id == InSoftError then 1 else 0
    ensures Entered(s, id).state == s.state && (Entered(s, id).retryArmed <==> id == InSoftError)
  {
    hide PostComms;
    PostCommsFrame(s.(scanPosts := s.scanPosts + [StartScan]), JoinNetwork);
    PostCommsFrame(s.(scanPosts := s.scanPosts + [StopScan]), StopDispatch);
    PostCommsFrame(s, StartDispatch);
    PostCommsKeepsCount(s.(scanPosts := s.scanPosts + [StartScan]), JoinNetwork);
    PostCommsKeepsCount(s.(scanPosts := s.scanPosts + [StopScan]), StopDispatch);
    PostCommsKeepsCount(s, StartDispatch);
  }

  lemma PostCommsFrame(s: System, c: CommsEvent)
    ensures var t := PostComms(s, c);
            t.state == s.state && t.retryArmed == s.retryArmed && t.appQueue == s.appQueue
  {
  }

  /** A transition carries the attempts over, minus an armed timer, plus what entry starts. */
  lemma MovedKeepsCount(s: System, id: StateId)
    requires s.retryArmed ==> s.state == InSoftError
    ensures var t := Moved(s, id);
            Attempts(t) + t.joinsLost
              == Attempts(s) + s.joinsLost - (if s.retryArmed then 1 else 0)
                 + if id == InStartup || id == InSoftError then 1 else 0
    ensures Moved(s, id).state == id && (Moved(s, id).retryArmed <==> id == InSoftError)
  {
    hide Entered;
    EnteredKeepsCount(Exited(s).(state := id), id);
  }

  lemma MovedKeepsAttempt(s: System, id: StateId)
    requires s.retryArmed ==> s.state == InSoftError
    requires id != InStartup
    requires var n := Attempts(s) + s.joinsLost - if s.retryArmed then 1 else 0;
             if id == InHardError then n <= 1 else n == 0
    ensures OneAttempt(Moved(s, id))
  {
    hide Moved;
    MovedKeepsCount(s, id);
  }

  lemma TakenCount(s: System, e: AppEvent)
    ensures Attempts(s.(appQueue := [e] + s.appQueue)) == Attempts(s) + if IsOutcome(e) || e.RetryTimeout? then 1 else 0
  {
    assert ([e] + s.appQueue)[1..] == s.appQueue;
  }

  /** An event the state ignores. */
  lemma IgnoredKeepsAttempt(s: System, e: AppEvent)
    requires OneAttempt(s.(appQueue := [e] + s.appQueue))
    requires s.state == InHardError || (!IsOutcome(e) && !e.RetryTimeout?)
    ensures OneAttempt(s)
  {
    TakenCount(s, e);
  }

  lemma AnsweredKeepsAttempt(s: System, e: AppEvent)
    requires OneAttempt(s.(appQueue := [e] + s.appQueue))
    requires s.state == InSoftError && (e.RetryTimeout? || e.NetworkJoinFailed?)
    ensures OneAttempt(Handled(s, e))
  {
    TakenCount(s, e);
    assert s.retryArmed ==> Attempts(s) >= 1;
    hide Attempts, PostComms;
    PostCommsKeepsCount(s, JoinNetwork);
    PostCommsFrame(s, JoinNetwork);
    RearmKeepsCount(s);
  }

  lemma HandledKeepsAttempt(s: System, e: AppEvent)
    requires OneAttempt(s.(appQueue := [e] + s.appQueue))
    ensures OneAttempt(Handled(s, e))
  {
    TakenCount(s, e);
    assert ([e] + s.appQueue)[0] == e;
    var x := ResetRetry(s);
    assert Attempts(x) == Attempts(s);
    hide Attempts, PostComms, Moved, ScheduleRetry;
    if s.state == InHardError || (!IsOutcome(e) && !e.RetryTimeout?) {
      IgnoredKeepsAttempt(s, e);
    }
    if e == NetworkJoined && (s.state == InStartup || s.state == InSoftError) {
      MovedKeepsAttempt(s, InListening);
      MovedKeepsAttempt(x, InListening);
    } else if s.state == InSoftError && (e.RetryTimeout? || e.NetworkJoinFailed?) {
      AnsweredKeepsAttempt(s, e);
    } else if s.state == InStartup && e == NetworkJoinFailed {
      MovedKeepsAttempt(s, InSoftError);
    } else if s.state == InListening || s.state == InDispatching {
      MovedKeepsAttempt(s, InSoftError);
      MovedKeepsAttempt(s, InListening);
      MovedKeepsAttempt(s, InDispatching);
      MovedKeepsAttempt(s, InHardError);
    } else if (s.state == InStartup && e == ServicesFailed) || (s.state == InSoftError && e == HardError) {
      MovedKeepsAttempt(s, InHardError);
    }
  }

  lemma RearmKeepsCount(s: System)
    ensures var t := ScheduleRetry(s);
            Attempts(t) + t.joinsLost == Attempts(s) + s.joinsLost + if s.retryArmed then 0 else 1
  {
  }

  /** A post of `e` that the attempt invariant survives: `s` is the state with the attempt already taken out of
      wherever it was. */
  lemma PostKeepsAttempt(s: System, e: AppEvent, was: System)
    requires OneAttempt(was)
    requires s.state == was.state && s.appQueue == was.appQueue && s.joinsLost == was.joinsLost
    requires s.retryArmed ==> was.retryArmed
    requires Attempts(was) == Attempts(s) + if IsOutcome(e) || e.RetryTimeout? then 1 else 0
    requires e.RetryTimeout? ==> was.retryArmed
    ensures OneAttempt(PostApp(s, e))
  {
    hide Attempts;
    PostAppKeepsCount(s, e);
  }

  lemma CommsPostKeepsAttempt(s: System, c: CommsEvent)
    requires OneAttempt(s) && !c.JoinNetwork?
    ensures OneAttempt(PostComms(s, c))
  {
    hide Attempts, PostComms;
    PostCommsKeepsCount(s, c);
    PostCommsFrame(s, c);
  }

  lemma FinishKeepsAttempt(s: System, joins: bool)
    requires s.comms != Nothing && OneAttempt(s)
    ensures OneAttempt(Apply(s, CommsFinishes(joins)))
  {
    hide PostApp;
    if s.comms.event.JoinNetwork? {
      PostKeepsAttempt(s.(comms := Nothing), if joins then NetworkJoined else NetworkJoinFailed, s);
    }
  }

  lemma StepKeepsAttempt(s: System, step: Step)
    requires Enabled(s, step) && OneAttempt(s)
    ensures OneAttempt(Apply(s, step))
  {
    hide Handled, PostApp, PostComms;
    match step
    case AppHandles =>
      hide Attempts;
      assert [s.appQueue[0]] + s.appQueue[1..] == s.appQueue;
      HandledKeepsAttempt(s.(appQueue := s.appQueue[1..]), s.appQueue[0]);
    case CommsTakes =>
    case CommsFinishes(joins) => FinishKeepsAttempt(s, joins);
    case RetryFires => PostKeepsAttempt(s.(retryArmed := false), RetryTimeout, s);
    case DispatchFires => CommsPostKeepsAttempt(s, DispatchDue);
    case Outside(e) => PostKeepsAttempt(s, e, s);
    case AskedToDispatch => CommsPostKeepsAttempt(s, DispatchNow);
  }

  /** In every reachable state the device is un-joined with exactly one attempt on its way, or joined with none;
      if a queue ever had no room for the attempt's event, no attempt is ever made again and the machine never
      reaches LISTENING, even when the event lost was the news of a join that went well. */
  lemma JoinAttempts(registered: bool, steps: seq<Step>)
    requires Possible(Init(registered), steps)
    ensures var s := Run(Init(registered), steps);
            && OneAttempt(s)
            && (s.joinsLost == 0 ==>
                  match s.state
                  case InStartup => Attempts(s) == 1
                  case InSoftError => Attempts(s) == 1
                  case InListening => Attempts(s) == 0
                  case InDispatching => Attempts(s) == 0
                  case InHardError => Attempts(s) <= 1)
            && (s.joinsLost > 0 ==>
                  s.joinsLost == 1 && Attempts(s) == 0 && !s.state.InListening? && !s.state.InDispatching?)
  {
    PostCommsKeepsCount(Off(registered).(scanPosts := [StartScan]), JoinNetwork);
    assert Off(registered).scanPosts + [StartScan] == [StartScan];
    assert OneAttempt(Init(registered));
    RunKeepsAttempt(Init(registered), steps);
  }

  lemma {:induction false} RunKeepsAttempt(s: System, steps: seq<Step>)
    requires Possible(s, steps) && OneAttempt(s)
    ensures OneAttempt(Run(s, steps))
    decreases steps
  {
    hide OneAttempt, Apply, Enabled;
    if steps != [] {
      StepKeepsAttempt(s, steps[0]);
      RunKeepsAttempt(Apply(s, steps[0]), steps[1..]);
    }
  }

  // ---- Rejoining ----

  /** Joined, or stopped after having been: nobody will try to join, and no soft error is waiting. */
  predicate Settled(s: System) {
    && (s.state == InListening || s.state == InDispatching || s.state == InHardError)
    && Attempts(s) + s.joinsLost == 0
    && SoftError !in s.appQueue
  }

  lemma HandledStaysSettled(s: System, e: AppEvent)
    requires Settled(s) && !IsOutcome(e) && !e.RetryTimeout? && e != SoftError
    ensures Settled(Handled(s, e))
  {
    assert !s.retryArmed;
    MovedSettles(s, InListening);
    MovedSettles(s, InDispatching);
    MovedSettles(s, InHardError);
    hide Moved, Settled;
  }

  lemma MovedSettles(s: System, id: StateId)
    requires Settled(s) && (id == InListening || id == InDispatching || id == InHardError)
    ensures Settled(Moved(s, id))
  {
    MovedKeepsCount(s, id);
    assert Moved(s, id).appQueue == s.appQueue by { hide Attempts; }
    hide Attempts, Moved;
  }

  lemma StepStaysSettled(s: System, step: Step)
    requires Enabled(s, step) && Settled(s) && step != Outside(SoftError)
    ensures Settled(Apply(s, step))
  {
    hide Handled, PostApp, PostComms;
    match step
    case AppHandles => HandledStaysSettled(s.(appQueue := s.appQueue[1..]), s.appQueue[0]);
    case CommsTakes =>
    case CommsFinishes(_) =>
    case RetryFires =>
    case DispatchFires => PostCommsKeepsCount(s, DispatchDue); PostCommsFrame(s, DispatchDue);
    case AskedToDispatch => PostCommsKeepsCount(s, DispatchNow); PostCommsFrame(s, DispatchNow);
    case Outside(e) => PostAppKeepsCount(s, e); PostAppFrame(s, e);
  }

  lemma PostAppFrame(s: System, e: AppEvent)
    ensures var t := PostApp(s, e); t.state == s.state && (t.appQueue == s.appQueue || t.appQueue == s.appQueue + [e])
  {
  }

  lemma {:induction false} RunStaysSettled(s: System, steps: seq<Step>)
    requires Possible(s, steps) && Settled(s) && Outside(SoftError) !in steps
    ensures Settled(Run(s, steps))
    decreases steps
  {
    hide Settled, Apply, Enabled;
    if steps != [] {
      StepStaysSettled(s, steps[0]);
      RunStaysSettled(Apply(s, steps[0]), steps[1..]);
    }
  }

  /** A device that has joined never tries to join again unless somebody posts a soft error, and nothing in the
      machine, the comms port or the timers does: a connection that drops is not rebuilt. */
  lemma OnlySoftErrorRejoins(registered: bool, before: seq<Step>, steps: seq<Step>)
    requires Possible(Init(registered), before)
    requires var s := Run(Init(registered), before);
             && (s.state == InListening || s.state == InDispatching) && SoftError !in s.appQueue
             && Possible(s, steps)
    requires Outside(SoftError) !in steps
    ensures var t := Run(Run(Init(registered), before), steps);
            Attempts(t) == 0 && t.comms != Handling(JoinNetwork) && t.state != InStartup && t.state != InSoftError
  {
    JoinAttempts(registered, before);
    RunStaysSettled(Run(Init(registered), before), steps);
  }

  /** Exactly that: in every reachable joined state, the one step that starts an attempt is handling a soft error. */
  lemma RejoinsExactly(registered: bool, before: seq<Step>, step: Step)
    requires Possible(Init(registered), before)
    requires var s := Run(Init(registered), before);
             (s.state == InListening || s.state == InDispatching) && Enabled(s, step)
    ensures var s := Run(Init(registered), before);
            Attempts(Apply(s, step)) > 0 <==> step.AppHandles? && s.appQueue[0] == SoftError
  {
    var s := Run(Init(registered), before);
    JoinAttempts(registered, before);
    StepKeepsAttempt(s, step);
    StepKeepsLosses(s, step);
    if step.AppHandles? {
      HandlingStarts(s);
    } else {
      StateIsKept(s, step);
    }
  }

  /** Leaving a joined state for SOFT_ERROR starts the one attempt there. */
  lemma HandlingStarts(s: System)
    requires s.state == InListening || s.state == InDispatching
    requires s.appQueue != [] && OneAttempt(s)
    ensures var t := Apply(s, AppHandles);
            if s.appQueue[0] == SoftError then Attempts(t) > 0 else t.state != InSoftError && t.state != InStartup
    ensures var t := Apply(s, AppHandles); t.state == InHardError ==> Attempts(t) == 0
  {
    var x, e := s.(appQueue := s.appQueue[1..]), s.appQueue[0];
    assert Attempts(x) + x.joinsLost == 0 && !x.retryArmed;
    MovedKeepsCount(x, InSoftError);
    MovedKeepsCount(x, InHardError);
    MovedKeepsCount(x, InListening);
    MovedKeepsCount(x, InDispatching);
    MovedScheduled(x);
    hide Moved, Attempts;
  }

  lemma MovedScheduled(s: System)
    ensures Attempts(Moved(s, InSoftError)) > 0
  {
  }

  lemma StateIsKept(s: System, step: Step)
    requires Enabled(s, step) && !step.AppHandles?
    ensures Apply(s, step).state == s.state
  {
  }

  // ---- The backoff, the scan and what a stopped device may still do ----

  function Backoff(n: nat): nat {
    Min(SOFT_ERROR_RETRY_MS as nat * Pow2(n), SOFT_ERROR_RETRY_MAX_MS as nat)
  }

  function Pow2(n: nat): nat {
    if n == 0 then 1 else 2 * Pow2(n - 1)
  }

  predicate BacksOff(s: System) {
    && s.retryDelay as nat == Backoff(|s.delays|)
    && (forall i :: 0 <= i < |s.delays| ==> s.delays[i] as nat == Backoff(i))
    && (s.state == InStartup || s.state == InListening || s.state == InDispatching ==> s.delays == [])
  }

  predicate ScansUntilHardError(s: System) {
    s.scanPosts == if s.state == InHardError then [StartScan, StopScan] else [StartScan]
  }

  /** The comms thread is told to stop only by HARD_ERROR, and cannot be told anything before it has a port. */
  predicate CommsCommanded(s: System) {
    && s.dispatchTimer == s.dispatchEnabled
    && (s.state != InHardError ==> StopDispatch !in s.commsQueue && s.comms != Handling(StopDispatch))
    && (!s.commsRegistered ==> s.commsQueue == [] && s.comms == Nothing && !s.dispatchEnabled && s.cycles == 0)
  }

  predicate Orderly(s: System) {
    BacksOff(s) && ScansUntilHardError(s) && CommsCommanded(s)
  }

  lemma NextIsDoubled(n: nat)
    ensures Backoff(n) < 0x1_0000_0000 && NextDelay(Backoff(n) as uint32) as nat == Backoff(n + 1)
  {
  }

  lemma ScheduleBacksOff(s: System)
    requires BacksOff(s)
    ensures BacksOff(ScheduleRetry(s).(state := InSoftError))
  {
    hide Backoff;
    NextIsDoubled(|s.delays|);
  }

  lemma PostCommsStaysOrderly(s: System, e: CommsEvent)
    requires Orderly(s) && e != StopDispatch
    ensures Orderly(PostComms(s, e))
  {
    hide Backoff;
  }

  lemma MovedStaysOrderly(s: System, id: StateId)
    requires Orderly(s) && s.state != InHardError && id != InStartup
    requires id == InListening || id == InDispatching ==> s.delays == []
    ensures Orderly(Moved(s, id))
  {
    hide Backoff;
    if id == InSoftError {
      ScheduleBacksOff(Exited(s));
    }
    hide ScheduleRetry;
  }

  lemma RearmStaysOrderly(s: System)
    requires Orderly(s)
    ensures s.state == InSoftError ==> Orderly(ScheduleRetry(s))
  {
    hide Backoff;
    ScheduleBacksOff(s);
  }

  lemma HandledStaysOrderly(s: System, e: AppEvent)
    requires Orderly(s)
    ensures Orderly(Handled(s, e))
  {
    var reset := ResetRetry(s);
    assert Orderly(reset) by { BackoffStart(); }
    PostCommsStaysOrderly(s, JoinNetwork);
    RearmStaysOrderly(s);
    assert s.state != InSoftError && s.state != InHardError ==> s.delays == [];
    HandledIs(s, e);
    hide Orderly, Moved, ScheduleRetry, PostComms, Backoff, ResetRetry, Handled;
    if s.state != InHardError {
      MovedStaysOrderly(reset, InListening);
      MovedStaysOrderly(s, InSoftError);
      MovedStaysOrderly(s, InHardError);
      if s.state != InSoftError {
        MovedStaysOrderly(s, InListening);
        MovedStaysOrderly(s, InDispatching);
      }
    }
  }

  lemma BackoffStart()
    ensures Backoff(0) == 30_000
  {
  }

  lemma StepStaysOrderly(s: System, step: Step)
    requires Enabled(s, step) && Orderly(s)
    ensures Orderly(Apply(s, step))
  {
    hide Backoff, Handled, PostApp, PostComms;
    match step
    case AppHandles => HandledStaysOrderly(s.(appQueue := s.appQueue[1..]), s.appQueue[0]);
    case CommsTakes =>
    case CommsFinishes(joins) => FinishStaysOrderly(s, joins);
    case RetryFires => PostAppStaysOrderly(s.(retryArmed := false), RetryTimeout);
    case DispatchFires => PostCommsStaysOrderly(s, DispatchDue);
    case Outside(e) => PostAppStaysOrderly(s, e);
    case AskedToDispatch => PostCommsStaysOrderly(s, DispatchNow);
  }

  lemma PostAppStaysOrderly(s: System, e: AppEvent)
    requires Orderly(s)
    ensures Orderly(PostApp(s, e))
  {
    hide Backoff;
  }

  lemma FinishStaysOrderly(s: System, joins: bool)
    requires s.comms != Nothing && Orderly(s)
    ensures Orderly(Apply(s, CommsFinishes(joins)))
  {
    hide Backoff, PostApp;
    PostAppStaysOrderly(s.(comms := Nothing), if joins then NetworkJoined else NetworkJoinFailed);
  }

  lemma {:induction false} RunStaysOrderly(s: System, steps: seq<Step>)
    requires Possible(s, steps) && Orderly(s)
    ensures Orderly(Run(s, steps))
    decreases steps
  {
    hide Orderly, Apply, Enabled;
    if steps != [] {
      StepStaysOrderly(s, steps[0]);
      RunStaysOrderly(Apply(s, steps[0]), steps[1..]);
    }
  }

  /** Scan commands are only ever added. */
  lemma StepKeepsScanning(s: System, step: Step)
    requires Enabled(s, step) && Orderly(s)
    ensures s.scanPosts <= Apply(s, step).scanPosts
  {
    StepStaysOrderly(s, step);
    HardErrorIsFinal(s, step);
    hide Apply, Enabled, BacksOff, CommsCommanded;
  }

  lemma HardErrorIsFinal(s: System, step: Step)
    requires Enabled(s, step)
    ensures s.state == InHardError ==> Apply(s, step).state == InHardError
  {
    if !step.AppHandles? {
      StateIsKept(s, step);
      hide Apply;
    }
    hide Moved, PostApp, PostComms, ScheduleRetry;
  }

  lemma InitIsOrderly(registered: bool)
    ensures Orderly(Init(registered))
  {
    BackoffStart();
    hide Backoff;
    assert Off(registered).scanPosts + [StartScan] == [StartScan];
  }

  /** The delay armed by the n-th failure since the last success is 30 s doubled n times, capped at 15 minutes;
      and a success always intervenes between two visits to SOFT_ERROR, so each starts over at 30 s. */
  lemma DelaysDoubleToTheCap(registered: bool, steps: seq<Step>)
    requires Possible(Init(registered), steps)
    ensures var s := Run(Init(registered), steps);
            && (forall n :: 0 <= n < |s.delays| ==> s.delays[n] as nat == Min(30_000 * Pow2(n), 900_000))
            && (s.state != InSoftError && s.state != InHardError ==> s.delays == [] && s.retryDelay == 30_000)
  {
    InitIsOrderly(registered);
    RunStaysOrderly(Init(registered), steps);
  }

  /** The scan is commanded once at start-up and stopped only by HARD_ERROR: at most two commands over any run. */
  lemma ScanCommands(registered: bool, steps: seq<Step>)
    requires Possible(Init(registered), steps)
    ensures var s := Run(Init(registered), steps);
            s.scanPosts == if s.state == InHardError then [StartScan, StopScan] else [StartScan]
  {
    InitIsOrderly(registered);
    RunStaysOrderly(Init(registered), steps);
  }

  /** Started before the comms port is registered, the machine never joins and never sends. */
  lemma UnregisteredCommsNeverJoins(steps: seq<Step>)
    requires Possible(Init(false), steps)
    ensures var s := Run(Init(false), steps);
            && s.cycles == 0 && s.joinsLost == 1 && Attempts(s) == 0
            && !s.state.InListening? && !s.state.InDispatching?
  {
    InitIsOrderly(false);
    RunStaysOrderly(Init(false), steps);
    JoinAttempts(false, steps);
    assert Init(false).joinsLost == 1;
    LossesLast(Init(false), steps);
  }

  lemma {:induction false} LossesLast(s: System, steps: seq<Step>)
    requires Possible(s, steps)
    ensures Run(s, steps).joinsLost >= s.joinsLost
    ensures Run(s, steps).commsRegistered == s.commsRegistered
    decreases steps
  {
    if steps != [] {
      StepKeepsLosses(s, steps[0]);
      hide Apply, Enabled;
      LossesLast(Apply(s, steps[0]), steps[1..]);
    }
  }

  lemma PostKeepsLosses(s: System, a: AppEvent, c: CommsEvent)
    ensures PostApp(s, a).joinsLost >= s.joinsLost && PostApp(s, a).commsRegistered == s.commsRegistered
    ensures PostComms(s, c).joinsLost >= s.joinsLost && PostComms(s, c).commsRegistered == s.commsRegistered
  {
  }

  lemma MovedKeepsLosses(s: System, id: StateId)
    ensures Moved(s, id).joinsLost >= s.joinsLost && Moved(s, id).commsRegistered == s.commsRegistered
  {
  }

  lemma StepKeepsLosses(s: System, step: Step)
    requires Enabled(s, step)
    ensures Apply(s, step).joinsLost >= s.joinsLost
    ensures Apply(s, step).commsRegistered == s.commsRegistered
  {
    forall x: System, a: AppEvent
      ensures PostApp(x, a).joinsLost >= x.joinsLost && PostApp(x, a).commsRegistered == x.commsRegistered
    {
      PostKeepsLosses(x, a, StopDispatch);
    }
    forall x: System, c: CommsEvent
      ensures PostComms(x, c).joinsLost >= x.joinsLost && PostComms(x, c).commsRegistered == x.commsRegistered
    {
      PostKeepsLosses(x, SoftError, c);
    }
    forall x: System, id: StateId
      ensures Moved(x, id).joinsLost >= x.joinsLost && Moved(x, id).commsRegistered == x.commsRegistered
    {
      MovedKeepsLosses(x, id);
    }
    if step.AppHandles? {
      HandledIs(s.(appQueue := s.appQueue[1..]), s.appQueue[0]);
    }
    hide PostApp, PostComms, Moved, Handled;
  }
}
