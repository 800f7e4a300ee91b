/** What a device may still transmit after HARD_ERROR. */
module HardErrorSilence {
  import opened AppModel
  import opened ActiveObject

  predicate Asks(e: CommsEvent) {
    e.DispatchDue? || e.DispatchNow?
  }

  /** Whether dispatching is off once the queue has been handled, thanks to a stop in it. */
  predicate EndsStopped(q: seq<CommsEvent>) {
    q != [] && if q[0].StopDispatch? then StartDispatch !in q[1..] else EndsStopped(q[1..])
  }

  function AsksBeforeStop(q: seq<CommsEvent>): nat {
    if q == [] || q[0].StopDispatch? then 0 else AsksBeforeStop(q[1..]) + if Asks(q[0]) then 1 else 0
  }

  predicate Silent(s: System) {
    && s.state == InHardError
    && StartDispatch !in s.commsQueue
    && (s.comms == Handling(StopDispatch) || OffTheAir(s))
  }

  /** Dispatching is off and nothing on its way will turn it on. */
  predicate OffTheAir(s: System) {
    !s.dispatchEnabled && StartDispatch !in s.commsQueue && s.comms != Handling(StartDispatch)
  }

  predicate FallingSilent(s: System) {
    s.state == InHardError && (Silent(s) || EndsStopped(s.commsQueue))
  }

  /** How many dispatch cycles may still begin. */
  function CyclesLeft(s: System): nat {
    if Silent(s) then 0
    else AsksBeforeStop(s.commsQueue) + if s.comms.Handling? && Asks(s.comms.event) then 1 else 0
  }

  lemma {:induction false} PostBehindStop(q: seq<CommsEvent>, e: CommsEvent)
    requires EndsStopped(q) && e != StartDispatch
    ensures EndsStopped(q + [e]) && AsksBeforeStop(q + [e]) == AsksBeforeStop(q)
  {
    assert (q + [e])[1..] == q[1..] + [e];
    if !q[0].StopDispatch? {
      PostBehindStop(q[1..], e);
    }
  }

  lemma {:induction false} StopPosted(q: seq<CommsEvent>)
    requires StopDispatch !in q
    ensures EndsStopped(q + [StopDispatch])
    ensures AsksBeforeStop(q + [StopDispatch]) == AsksBeforeStop(q)
  {
    if q == [] {
      assert [StopDispatch][1..] == [];
    } else {
      assert (q + [StopDispatch])[1..] == q[1..] + [StopDispatch];
      StopPosted(q[1..]);
    }
  }

  lemma {:induction false} StopsMeansStopIn(q: seq<CommsEvent>)
    ensures EndsStopped(q) ==> StopDispatch in q
  {
    if q != [] {
      StopsMeansStopIn(q[1..]);
    }
  }

  /** From `s` to `t` the device keeps falling silent, stays silent if it was, and has begun no more cycles than
      are missing from those it had left. */
  predicate Falls(s: System, t: System) {
    && FallingSilent(t) && (Silent(s) ==> Silent(t))
    && s.cycles <= t.cycles && t.cycles + CyclesLeft(t) <= s.cycles + CyclesLeft(s)
  }

  lemma PostFalls(s: System, e: CommsEvent)
    requires FallingSilent(s) && e != StartDispatch
    ensures Falls(s, PostComms(s, e))
  {
    if EndsStopped(s.commsQueue) {
      PostBehindStop(s.commsQueue, e);
    }
  }

  /** What the application thread does in HARD_ERROR touches nothing that matters here. */
  lemma SameCommsFalls(s: System, t: System)
    requires FallingSilent(s)
    requires t.state == s.state && t.commsQueue == s.commsQueue && t.comms == s.comms
    requires t.dispatchEnabled == s.dispatchEnabled && t.cycles == s.cycles
    ensures Falls(s, t)
  {
  }

  lemma TakingFalls(s: System)
    requires FallingSilent(s) && Enabled(s, CommsTakes)
    ensures Falls(s, Apply(s, CommsTakes))
  {
  }

  lemma FinishingFalls(s: System, joins: bool)
    requires FallingSilent(s) && Enabled(s, CommsFinishes(joins))
    ensures Falls(s, Apply(s, CommsFinishes(joins)))
  {
    if s.comms.event.JoinNetwork? {
      var t := s.(comms := Nothing);
      AnswerFalls(t, if joins then NetworkJoined else NetworkJoinFailed);
    }
    hide PostApp, EndsStopped, AsksBeforeStop;
  }

  lemma AnswerFalls(s: System, e: AppEvent)
    requires FallingSilent(s)
    ensures Falls(s, PostApp(s, e))
  {
    SameCommsFalls(s, PostApp(s, e));
  }

  lemma StepFalls(s: System, step: Step)
    requires Enabled(s, step) && FallingSilent(s)
    ensures Falls(s, Apply(s, step))
  {
    assert s.state == InHardError;
    hide FallingSilent, Falls, PostComms;
    match step
    case DispatchFires => PostFalls(s, DispatchDue);
    case AskedToDispatch => PostFalls(s, DispatchNow);
    case CommsTakes => TakingFalls(s);
    case CommsFinishes(joins) => FinishingFalls(s, joins);
    case AppHandles => SameCommsFalls(s, Apply(s, step));
    case RetryFires => SameCommsFalls(s, Apply(s, step));
    case Outside(e) => SameCommsFalls(s, Apply(s, step));
  }

  lemma {:induction false} RunFalls(s: System, steps: seq<Step>)
    requires Possible(s, steps) && FallingSilent(s)
    ensures Falls(s, Run(s, steps))
    decreases steps
  {
    hide FallingSilent, Silent, CyclesLeft, Apply, Enabled;
    if steps != [] {
      StepFalls(s, steps[0]);
      RunFalls(Apply(s, steps[0]), steps[1..]);
    }
  }

  // ---- The step into HARD_ERROR ----

  /** The comms queue takes the stop that entering HARD_ERROR posts. */
  predicate StopAccepted(s: System) {
    s.commsRegistered && |s.commsQueue| < QUEUE_LENGTH
  }

  /** The application handles the event that sends it to HARD_ERROR. */
  predicate EntersHardError(s: System) {
    s.state != InHardError && s.appQueue != [] && Apply(s, AppHandles).state == InHardError
  }

  lemma EnteringIs(s: System)
    requires EntersHardError(s)
    ensures var t := Apply(s, AppHandles);
            && t.commsQueue == (if StopAccepted(s) then s.commsQueue + [StopDispatch] else s.commsQueue)
            && t.comms == s.comms && t.dispatchEnabled == s.dispatchEnabled && t.cycles == s.cycles
            && t.commsRegistered == s.commsRegistered && t.dispatchTimer == s.dispatchTimer
  {
    var x := s.(appQueue := s.appQueue[1..]);
    HandledIs(x, s.appQueue[0]);
    MovedGoes(x, InListening);
    MovedGoes(x, InDispatching);
    MovedGoes(x, InSoftError);
    MovedGoes(ResetRetry(x), InListening);
    CommsPostFrame(x, JoinNetwork);
    hide Handled;
    assert Apply(s, AppHandles) == Moved(x, InHardError) by {
      hide Moved, PostComms;
    }
  }

  lemma MovedGoes(s: System, id: StateId)
    ensures Moved(s, id).state == id
  {
  }

  lemma CommsPostFrame(s: System, e: CommsEvent)
    ensures PostComms(s, e).state == s.state
  {
  }

  /** Once HARD_ERROR has been entered and its stop accepted, only what was already in the comms queue or being
      handled can still begin a cycle, each at most one; and when the stop has left the queue, none ever does. */
  lemma HardErrorFallsSilent(registered: bool, before: seq<Step>, after: seq<Step>, later: seq<Step>)
    requires Possible(Init(registered), before)
    requires EntersHardError(Run(Init(registered), before)) && StopAccepted(Run(Init(registered), before))
    requires Possible(Apply(Run(Init(registered), before), AppHandles), after)
    requires Possible(Run(Apply(Run(Init(registered), before), AppHandles), after), later)
    ensures var s := Run(Init(registered), before);
            var t := Run(Apply(s, AppHandles), after);
            && t.cycles <= s.cycles + AsksBeforeStop(s.commsQueue)
                  + (if s.comms.Handling? && Asks(s.comms.event) then 1 else 0)
            && (StopDispatch !in t.commsQueue ==> Run(t, later).cycles == t.cycles)
  {
    var s := Run(Init(registered), before);
    InitIsOrderly(registered);
    RunStaysOrderly(Init(registered), before);
    EnteringIs(s);
    StopPosted(s.commsQueue);
    var entered := Apply(s, AppHandles);
    RunFalls(entered, after);
    var t := Run(entered, after);
    RunFalls(t, later);
    StopsMeansStopIn(t.commsQueue);
  }

  // ---- And only then ----

  /** Nothing will switch dispatching off. */
  predicate Unstopped(s: System) {
    && s.commsRegistered && StopDispatch !in s.commsQueue && s.comms != Handling(StopDispatch)
    && s.dispatchTimer == s.dispatchEnabled && !OffTheAir(s)
  }

  /** An unstopped device can begin any number of further cycles, on its own timer alone, whatever state its
      application is in. */
  lemma {:induction false} UnstoppedCyclesForEver(s: System, n: nat) returns (steps: seq<Step>)
    requires Unstopped(s)
    ensures Possible(s, steps) && Run(s, steps).cycles >= s.cycles + n
    decreases n, |s.commsQueue| * 2 + if s.comms == Nothing then 0 else 1
  {
    if n == 0 {
      steps := [];
    } else if s.comms != Nothing {
      var t := Apply(s, CommsFinishes(false));
      var gained := t.cycles - s.cycles;
      assert 0 <= gained <= 1;
      var rest := UnstoppedCyclesForEver(t, n - gained);
      steps := After(s, CommsFinishes(false), rest);
    } else if s.commsQueue != [] {
      var rest := UnstoppedCyclesForEver(Apply(s, CommsTakes), n);
      steps := After(s, CommsTakes, rest);
    } else {
      var due := Apply(s, DispatchFires);
      var taken := Apply(due, CommsTakes);
      var done := Apply(taken, CommsFinishes(false));
      var rest := UnstoppedCyclesForEver(done, n - 1);
      rest := After(taken, CommsFinishes(false), rest);
      rest := After(due, CommsTakes, rest);
      steps := After(s, DispatchFires, rest);
    }
  }

  lemma After(s: System, step: Step, rest: seq<Step>) returns (steps: seq<Step>)
    requires Enabled(s, step) && Possible(Apply(s, step), rest)
    ensures Possible(s, steps) && Run(s, steps) == Run(Apply(s, step), rest)
  {
    steps := [step] + rest;
    assert steps[1..] == rest;
  }

  ghost predicate CyclesStayWithin(s: System, bound: nat) {
    forall steps :: Possible(s, steps) ==> Run(s, steps).cycles <= bound
  }

  /** Entering HARD_ERROR bounds what is still transmitted if and only if the comms queue took the stop, or
      dispatching was off with nothing queued to turn it on. The promise that a stopped device does not keep
      transmitting therefore rests on a queue slot being free at that moment. */
  lemma HardErrorSilencesExactly(registered: bool, before: seq<Step>)
    requires Possible(Init(registered), before)
    requires EntersHardError(Run(Init(registered), before))
    ensures var s := Run(Init(registered), before);
            (exists bound: nat :: CyclesStayWithin(Apply(s, AppHandles), bound)) <==> StopAccepted(s) || OffTheAir(s)
  {
    var s := Run(Init(registered), before);
    var t := Apply(s, AppHandles);
    InitIsOrderly(registered);
    RunStaysOrderly(Init(registered), before);
    EnteringIs(s);
    StopPosted(s.commsQueue);
    if StopAccepted(s) || OffTheAir(s) {
      forall steps | Possible(t, steps)
        ensures Run(t, steps).cycles <= t.cycles + CyclesLeft(t)
      {
        RunFalls(t, steps);
      }
      assert CyclesStayWithin(t, t.cycles + CyclesLeft(t));
    } else {
      forall bound: nat
        ensures !CyclesStayWithin(t, bound)
      {
        var steps := UnstoppedCyclesForEver(t, bound + 1);
      }
    }
  }

  lemma {:induction false} FillCommsQueue(s: System) returns (steps: seq<Step>)
    requires s.state == InListening && s.appQueue == [HardError]
    requires s.commsRegistered && s.dispatchEnabled && s.dispatchTimer && |s.commsQueue| <= QUEUE_LENGTH
    ensures Possible(s, steps)
    ensures var t := Run(s, steps); EntersHardError(t) && !StopAccepted(t) && !OffTheAir(t)
    decreases QUEUE_LENGTH - |s.commsQueue|
  {
    if |s.commsQueue| == QUEUE_LENGTH {
      steps := [];
    } else {
      var rest := FillCommsQueue(Apply(s, DispatchFires));
      steps := After(s, DispatchFires, rest);
    }
  }

  /** The stop can be lost: the dispatch timer has filled the comms queue by the time HARD_ERROR comes. */
  lemma StopCanBeLost() returns (steps: seq<Step>)
    ensures Possible(Init(true), steps)
    ensures var s := Run(Init(true), steps); EntersHardError(s) && !StopAccepted(s) && !OffTheAir(s)
  {
    var s0 := Init(true);
    var s1 := Apply(s0, CommsTakes);
    var s2 := Apply(s1, CommsFinishes(true));
    var s3 := Apply(s2, AppHandles);
    var s4 := Apply(s3, CommsTakes);
    var s5 := Apply(s4, CommsFinishes(false));
    var s6 := Apply(s5, Outside(HardError));
    var rest := FillCommsQueue(s6);
    rest := After(s5, Outside(HardError), rest);
    rest := After(s4, CommsFinishes(false), rest);
    rest := After(s3, CommsTakes, rest);
    rest := After(s2, AppHandles, rest);
    rest := After(s1, CommsFinishes(true), rest);
    steps := After(s0, CommsTakes, rest);
  }
}
