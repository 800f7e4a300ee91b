/** The application object itself: its event queues and ports, the state machine with its current, previous and
    next state, the retry timer and the comms port's handler, proved to take the steps of `AppModel`. */
module Application {
  import opened Words
  import opened AppModel
  import opened ActiveObject
  import opened Wrappers
  import RingQueue

  class Application {
    const appQueue: RingQueue.Queue<AppEvent>
    const commsQueue: RingQueue.Queue<CommsEvent>
    var commsRegistered: bool
    var scanPosts: seq<ScanEvent>
    var droppedEvents: uint32
    // the state machine
    var current: Option<StateId>
    var previous: Option<StateId>
    var next: Option<StateId>
    var currentId: StateId
    // the soft error state
    var retryDelay: uint32
    var retryArmed: bool
    // the comms service
    var comms: Idle
    var dispatchEnabled: bool
    var dispatchTimer: bool
    // what has happened so far
    ghost var delays: seq<uint32>
    ghost var cycles: nat
    ghost var joinsLost: nat

    ghost predicate Wired()
      reads this, appQueue, commsQueue
    {
      && appQueue.Valid() && appQueue.storage.Length == QUEUE_LENGTH
      && commsQueue.Valid() && commsQueue.storage.Length == QUEUE_LENGTH
      && appQueue as object != commsQueue as object
      && appQueue.storage as object != commsQueue.storage as object
    }

    /** Between events: the machine runs, in the state its badge names. */
    ghost predicate Running()
      reads this, appQueue, commsQueue
    {
      Wired() && current == Some(currentId) && next == None
    }

    /** The modelled system with the machine in state `id`. */
    ghost function ModelIn(id: StateId): System
      requires Wired()
      reads this, appQueue, appQueue.storage, commsQueue, commsQueue.storage
    {
      System(id, appQueue.Contents(), commsQueue.Contents(), commsRegistered, scanPosts, comms, retryDelay, retryArmed,
             delays, dispatchEnabled, dispatchTimer, cycles, joinsLost)
    }

    ghost function Model(): System
      requires Running()
      reads this, appQueue, appQueue.storage, commsQueue, commsQueue.storage
    {
      ModelIn(currentId)
    }

    constructor (commsRegistered: bool)
      ensures Wired() && current == None && ModelIn(InStartup) == Off(commsRegistered)
      ensures fresh(appQueue) && fresh(appQueue.storage) && fresh(commsQueue) && fresh(commsQueue.storage)
    {
      var a := new RingQueue.Queue<AppEvent>(QUEUE_LENGTH);
      var c := new RingQueue.Queue<CommsEvent>(QUEUE_LENGTH);
      appQueue, commsQueue := a, c;
      this.commsRegistered := commsRegistered;
      scanPosts, droppedEvents := [], 0;
      current, previous, next, currentId := None, None, None, InStartup;
      retryDelay, retryArmed := SOFT_ERROR_RETRY_MS, false;
      comms, dispatchEnabled, dispatchTimer := Nothing, false, false;
      delays, cycles, joinsLost := [], 0, 0;
    }

    method PostToApp(event: AppEvent) returns (result: PostResult)
      requires Wired()
      modifies `droppedEvents, `joinsLost, appQueue, appQueue.storage
      ensures Wired()
      ensures forall id :: ModelIn(id) == PostApp(old(ModelIn(id)), event)
      ensures result == if |old(appQueue.Contents())| < QUEUE_LENGTH then Ok else QueueFull
      ensures droppedEvents == if result == Ok then old(droppedEvents) else (old(droppedEvents) + 1) % 0x1_0000_0000
    {
      hide RingQueue.Queue.Valid, RingQueue.Queue.Contents;
      var put := appQueue.Push(event);
      if !put {
        droppedEvents := Next32(droppedEvents);
        if IsOutcome(event) || event.RetryTimeout? {
          joinsLost := joinsLost + 1;
        }
        return QueueFull;
      }
      return Ok;
    }

    /** Nothing is posted to a port that is not in the registry, and nothing is counted: the drop counter counts
        full queues only. */
    method PostToComms(event: CommsEvent) returns (result: PostResult)
      requires Wired()
      modifies `droppedEvents, `joinsLost, commsQueue, commsQueue.storage
      ensures Wired()
      ensures forall id :: ModelIn(id) == PostComms(old(ModelIn(id)), event)
      ensures result == (if !commsRegistered then PortNotReady
                         else if |old(commsQueue.Contents())| < QUEUE_LENGTH then Ok else QueueFull)
      ensures droppedEvents == if result.QueueFull? then (old(droppedEvents) + 1) % 0x1_0000_0000
          else old(droppedEvents)
    {
      hide RingQueue.Queue.Valid, RingQueue.Queue.Contents;
      result := PortNotReady;
      if commsRegistered {
        var put := commsQueue.Push(event);
        if put {
          result := Ok;
        } else {
          droppedEvents := Next32(droppedEvents);
          result := QueueFull;
        }
      }
      if result != Ok && event.JoinNetwork? {
        joinsLost := joinsLost + 1;
      }
    }

    /** Arms the timer and makes the next wait longer. */
    method ScheduleRetry()
      requires Wired()
      modifies `retryArmed, `retryDelay, `delays
      ensures forall id :: ModelIn(id) == AppModel.ScheduleRetry(old(ModelIn(id)))
    {
      retryArmed := true;
      delays := delays + [retryDelay];
      if retryDelay > SOFT_ERROR_RETRY_MAX_MS / 2 {
        retryDelay := SOFT_ERROR_RETRY_MAX_MS;
      } else {
        retryDelay := retryDelay * 2;
      }
    }

    /** The entry action of a state. */
    method Entry(id: StateId)
      requires Wired()
      modifies `droppedEvents, `joinsLost, `scanPosts, `retryArmed, `retryDelay, `delays, commsQueue, commsQueue.storage
      ensures Wired()
      ensures ModelIn(id) == Entered(old(ModelIn(id)), id)
    {
      hide PostComms;
      match id {
        case InStartup =>
          scanPosts := scanPosts + [StartScan];
          var _ := PostToComms(JoinNetwork);
        case InListening =>
          var _ := PostToComms(StartDispatch);
        case InDispatching =>
        case InSoftError =>
          ScheduleRetry();
        case InHardError =>
          scanPosts := scanPosts + [StopScan];
          var _ := PostToComms(StopDispatch);
      }
    }

    method Exit(id: StateId)
      modifies `retryArmed
      ensures retryArmed == (old(retryArmed) && id != InSoftError)
    {
      if id == InSoftError {
        retryArmed := false;
      }
    }

    method ChangeState(id: StateId)
      requires Running()
      modifies `current, `previous, `droppedEvents, `joinsLost, `scanPosts, `retryArmed, `retryDelay, `delays,
               commsQueue, commsQueue.storage
      ensures Wired()
      ensures current == Some(id) && previous == old(current)
      ensures ModelIn(id) == Moved(old(Model()), id)
    {
      hide Entered, RingQueue.Queue.Valid, RingQueue.Queue.Contents;
      Exit(current.value);
      previous := current;
      current := Some(id);
      Entry(id);
    }

    method TransitionTo(id: StateId)
      requires Running()
      modifies `current, `previous, `currentId, `droppedEvents, `joinsLost, `scanPosts, `retryArmed, `retryDelay,
               `delays, commsQueue, commsQueue.storage
      ensures Running()
      ensures currentId == id && previous == Some(old(currentId))
      ensures Model() == Moved(old(Model()), id)
    {
      ChangeState(id);
      currentId := id;
    }

    /** Starts the machine: its first state becomes the current one, and is entered. */
    method Init()
      requires Wired()
      modifies `current, `previous, `next, `currentId, `droppedEvents, `joinsLost, `scanPosts, `retryArmed,
               `retryDelay, `delays, commsQueue, commsQueue.storage
      ensures Running() && previous == Some(InStartup)
      ensures Model() == Entered(old(ModelIn(InStartup)), InStartup)
    {
      hide Entered, RingQueue.Queue.Valid, RingQueue.Queue.Contents;
      next := Some(InStartup);
      currentId := InStartup;
      if next != None {
        previous := next;
        current := next;
        next := None;
      }
      Entry(InStartup);
    }

    method StartupEvent(event: AppEvent)
      requires Running() && currentId == InStartup
      modifies `current, `previous, `currentId, `droppedEvents, `joinsLost, `scanPosts, `retryArmed, `retryDelay,
               `delays, commsQueue, commsQueue.storage
      ensures Running()
      ensures Model() == Handled(old(Model()), event)
      ensures previous == if currentId == old(currentId) then old(previous) else Some(old(currentId))
    {
      hide Moved, PostComms;
      match event {
        case NetworkJoined => TransitionTo(InListening);
        case NetworkJoinFailed => TransitionTo(InSoftError);
        case ServicesFailed => TransitionTo(InHardError);
        case _ =>
      }
    }

    method ListeningEvent(event: AppEvent)
      requires Running() && currentId == InListening
      modifies `current, `previous, `currentId, `droppedEvents, `joinsLost, `scanPosts, `retryArmed, `retryDelay,
               `delays, commsQueue, commsQueue.storage
      ensures Running()
      ensures Model() == Handled(old(Model()), event)
      ensures previous == if currentId == old(currentId) then old(previous) else Some(old(currentId))
    {
      hide Moved, PostComms;
      match event {
        case DispatchStarted => TransitionTo(InDispatching);
        case SoftError => TransitionTo(InSoftError);
        case HardError => TransitionTo(InHardError);
        case _ =>
      }
    }

    method DispatchingEvent(event: AppEvent)
      requires Running() && currentId == InDispatching
      modifies `current, `previous, `currentId, `droppedEvents, `joinsLost, `scanPosts, `retryArmed, `retryDelay,
               `delays, commsQueue, commsQueue.storage
      ensures Running()
      ensures Model() == Handled(old(Model()), event)
      ensures previous == if currentId == old(currentId) then old(previous) else Some(old(currentId))
    {
      hide Moved, PostComms;
      match event {
        case DispatchFinished => TransitionTo(InListening);
        case SoftError => TransitionTo(InSoftError);
        case HardError => TransitionTo(InHardError);
        case _ =>
      }
    }

    method SoftErrorEvent(event: AppEvent)
      requires Running() && currentId == InSoftError
      modifies `current, `previous, `currentId, `droppedEvents, `joinsLost, `scanPosts, `retryArmed, `retryDelay,
               `delays, commsQueue, commsQueue.storage
      ensures Running()
      ensures Model() == Handled(old(Model()), event)
      ensures previous == if currentId == old(currentId) then old(previous) else Some(old(currentId))
    {
      hide Moved, PostComms, AppModel.ScheduleRetry, RingQueue.Queue.Valid, RingQueue.Queue.Contents;
      match event {
        case RetryTimeout => var _ := PostToComms(JoinNetwork);
        case NetworkJoinFailed => ScheduleRetry();
        case NetworkJoined =>
          retryDelay := SOFT_ERROR_RETRY_MS;
          delays := [];
          assert Model() == ResetRetry(old(Model()));
          TransitionTo(InListening);
        case HardError => TransitionTo(InHardError);
        case _ =>
      }
    }

    /** The machine's answer to an event is its current state's. */
    method DispatchEvent(event: AppEvent)
      requires Wired() && next == None && (current != None ==> current == Some(currentId))
      modifies `current, `previous, `currentId, `droppedEvents, `joinsLost, `scanPosts, `retryArmed, `retryDelay,
               `delays, commsQueue, commsQueue.storage
      ensures Wired() && next == None
      ensures old(current) == None ==> current == None && ModelIn(InStartup) == old(ModelIn(InStartup))
      ensures old(current) != None ==>
                && Running()
                && Model() == Handled(old(Model()), event)
                && previous == if currentId == old(currentId) then old(previous) else Some(old(currentId))
    {
      hide Handled;
      if current == None {
        return;
      }
      match current.value {
        case InStartup => StartupEvent(event);
        case InListening => ListeningEvent(event);
        case InDispatching => DispatchingEvent(event);
        case InSoftError => SoftErrorEvent(event);
        case InHardError => HardErrorIgnores(Model(), event);
      }
    }

    /** One turn of the application thread's event loop. */
    method ProcessEvent()
      requires Running() && appQueue.Contents() != []
      modifies `current, `previous, `currentId, `droppedEvents, `joinsLost, `scanPosts, `retryArmed, `retryDelay,
               `delays, appQueue, commsQueue, commsQueue.storage
      ensures Running()
      ensures Model() == Apply(old(Model()), AppHandles)
    {
      hide Handled;
      hide RingQueue.Queue.Valid, RingQueue.Queue.Contents;
      ghost var events := appQueue.Contents();
      var event, found := appQueue.Pop();
      assert event == events[0] && appQueue.Contents() == events[1..];
      DispatchEvent(event);
    }

    /** One turn of the comms thread's event loop, up to the handler. */
    method TakeCommsEvent()
      requires Running() && comms == Nothing && commsQueue.Contents() != []
      modifies `comms, commsQueue
      ensures Running()
      ensures Model() == Apply(old(Model()), CommsTakes)
    {
      hide RingQueue.Queue.Valid, RingQueue.Queue.Contents;
      ghost var events := commsQueue.Contents();
      var event, found := commsQueue.Pop();
      assert event == events[0] && commsQueue.Contents() == events[1..];
      comms := Handling(event);
    }

    /** The outcome of a join travels back as an event. */
    method ReportJoin(joins: bool)
      requires Running() && comms == Nothing
      modifies `droppedEvents, `joinsLost, appQueue, appQueue.storage
      ensures Running()
      ensures Model() == Executed(old(Model()), JoinNetwork, joins)
    {
      hide PostApp;
      var _ := PostToApp(if joins then NetworkJoined else NetworkJoinFailed);
    }

    method DispatchIfEnabled() returns (dispatches: bool)
      modifies `cycles
      ensures dispatches == dispatchEnabled && cycles == old(cycles) + if dispatches then 1 else 0
    {
      if !dispatchEnabled {
        return false;
      }
      cycles := cycles + 1;
      return true;
    }

    /** The comms port's handler. `dispatches` says whether it runs a dispatch cycle. */
    method ExecuteCommsEvent(joins: bool) returns (dispatches: bool)
      requires Running() && comms != Nothing
      modifies `comms, `dispatchEnabled, `dispatchTimer, `cycles, `droppedEvents, `joinsLost, appQueue, appQueue.storage
      ensures Running()
      ensures Model() == Apply(old(Model()), CommsFinishes(joins))
      ensures dispatches <==> (old(comms).event.DispatchDue? || old(comms).event.DispatchNow?) && old(dispatchEnabled)
    {
      hide PostApp, PostComms, Handled, RingQueue.Queue.Valid, RingQueue.Queue.Contents;
      var event := comms.event;
      comms := Nothing;
      dispatches := false;
      match event {
        case JoinNetwork => ReportJoin(joins);
        case StartDispatch =>
          dispatchEnabled := true;
          dispatchTimer := true;
        case StopDispatch =>
          dispatchEnabled := false;
          dispatchTimer := false;
        case _ => dispatches := DispatchIfEnabled();
      }
    }

    method OnRetryTimerExpired()
      requires Running() && retryArmed
      modifies `retryArmed, `droppedEvents, `joinsLost, appQueue, appQueue.storage
      ensures Running()
      ensures Model() == Apply(old(Model()), RetryFires)
    {
      hide PostApp, RingQueue.Queue.Valid, RingQueue.Queue.Contents;
      retryArmed := false;
      var _ := PostToApp(RetryTimeout);
    }

    method OnDispatchTimerExpired()
      requires Running() && dispatchTimer
      modifies `droppedEvents, `joinsLost, commsQueue, commsQueue.storage
      ensures Running()
      ensures Model() == Apply(old(Model()), DispatchFires)
    {
      hide PostComms;
      var _ := PostToComms(DispatchDue);
    }
  }

  lemma HardErrorIgnores(s: System, e: AppEvent)
    requires s.state == InHardError
    ensures Handled(s, e) == s
  {
  }
}
