/** The acquisition service itself: the callback, the drain loop and the event handler over their queues. */
module Acquisition {
  import opened Words
  import opened Records
  import opened TableModel
  import opened AdParser
  import opened Intake
  import opened ActiveObject
  import DeviceTable
  import RingQueue

  /** The whole callback, when nothing comes between its two halves. */
  function OnReport(s: Core, r: AdvReport, poolSize: nat): Core {
    if |s.pool| >= poolSize then Put(s, r, poolSize) else Posted(Put(s, r, poolSize), AdvReportAvailable)
  }

  function OnReports(s: Core, rs: seq<AdvReport>, poolSize: nat): (s': Core)
    ensures s'.table == s.table
    decreases |rs|
  {
    if rs == [] then s else OnReport(OnReports(s, rs[..|rs| - 1], poolSize), rs[|rs| - 1], poolSize)
  }

  function Batch(arrivals: seq<seq<AdvReport>>, i: nat): seq<AdvReport> {
    if i < |arrivals| then arrivals[i] else []
  }

  /** The drain loop from its turn `i` on, with `arrivals[i]` received before the turn looks at the pool. It ends
      when it finds the pool empty. */
  function Drained(s: Core, cfg: Settings, arrivals: seq<seq<AdvReport>>, clock: nat -> uint32, i: nat): (s': Core)
    requires |s.table.entries| > 0
    ensures s'.pool == [] && |s'.table.entries| == |s.table.entries|
    decreases if i < |arrivals| then |arrivals| - i else 0, |s.pool|
  {
    var x := OnReports(s, Batch(arrivals, i), cfg.poolSize);
    if x.pool == [] then x else Drained(DrainedOne(x, clock(i), cfg.company), cfg, arrivals, clock, i + 1)
  }

  /** The handling of the first event in the queue, and what it tells the radio. */
  function Executed(s: Core, cfg: Settings, arrivals: seq<seq<AdvReport>>, clock: nat -> uint32): Core
    requires s.events != [] && |s.table.entries| > 0
  {
    var taken := s.(events := s.events[1..]);
    if s.events[0] == AdvReportAvailable then Drained(taken, cfg, arrivals, clock, 0) else taken
  }

  class Acquisition {
    const pool: RingQueue.Queue<AdvReport>
    const events: RingQueue.Queue<AcqEvent>
    const table: DeviceTable.DeviceTable
    const company: uint16
    var droppedReportCount: uint16

    ghost predicate Valid()
      reads this, pool, events, table
    {
      && pool.Valid() && events.Valid() && table.Valid()
      && events.storage.Length == QUEUE_LENGTH
      && pool as object != events as object
      && pool.storage as object != events.storage as object
      && pool.storage as object != table.entries as object
      && events.storage as object != table.entries as object
    }

    ghost function Contents(): Core
      requires Valid()
      reads this, pool, pool.storage, events, events.storage, table, table.entries
    {
      Core(pool.Contents(), events.Contents(), droppedReportCount, table.Contents())
    }

    function Setup(): Settings {
      Settings(pool.storage.Length, company)
    }

    constructor (poolSize: nat, company: uint16, table: DeviceTable.DeviceTable)
      requires poolSize > 0 && table.Valid()
      ensures Valid() && this.table == table && Setup() == Settings(poolSize, company)
      ensures Contents() == Core([], [], 0, table.Contents())
      ensures fresh(pool) && fresh(pool.storage) && fresh(events) && fresh(events.storage)
    {
      var p := new RingQueue.Queue<AdvReport>(poolSize);
      var e := new RingQueue.Queue<AcqEvent>(QUEUE_LENGTH);
      pool, events := p, e;
      this.table, this.company := table, company;
      droppedReportCount := 0;
    }

    /** The radio driver's callback: copies the report into the pool and posts a wake-up, or counts the drop. */
    method OnAdvReport(report: AdvReport)
      requires Valid()
      modifies `droppedReportCount, pool, pool.storage, events, events.storage
      ensures Valid()
      ensures Contents() == OnReport(old(Contents()), report, pool.storage.Length)
    {
      var stored := pool.Push(report);
      if !stored {
        if droppedReportCount < UINT16_MAX {
          droppedReportCount := droppedReportCount + 1;
        }
        return;
      }
      var posted := events.Push(AdvReportAvailable);
    }

    method ReceiveAll(reports: seq<AdvReport>)
      requires Valid()
      modifies `droppedReportCount, pool, pool.storage, events, events.storage
      ensures Valid()
      ensures Contents() == OnReports(old(Contents()), reports, pool.storage.Length)
    {
      hide OnReport, RingQueue.Queue.Valid, RingQueue.Queue.Contents;
      ghost var s := Contents();
      var k := 0;
      while k < |reports|
        invariant k <= |reports| && Valid()
        invariant Contents() == OnReports(s, reports[..k], pool.storage.Length)
      {
        OnAdvReport(reports[k]);
        assert reports[..k + 1][..k] == reports[..k];
        k := k + 1;
      }
      assert reports[..k] == reports;
    }

    /** One turn of the drain loop: gets a report, if there is one, and records it if it parses. */
    method DrainTurn(now: uint32) returns (found: bool)
      requires Valid()
      modifies pool, table, table.entries
      ensures Valid()
      ensures found <==> old(Contents()).pool != []
      ensures Contents() == if found then DrainedOne(old(Contents()), now, company) else old(Contents())
    {
      hide AfterAdvert, Parse, RingQueue.Queue.Valid, RingQueue.Queue.Contents;
      ghost var reports := pool.Contents();
      var report;
      report, found := pool.Pop();
      if found {
        assert report == reports[0] && pool.Contents() == reports[1..];
        var frame := ParseCustomFrame(report, company);
        if frame.Some? {
          table.Upsert(Advert(report.address, report.rssi, frame.value, now));
        }
      }
    }

    /** Empties the pool, recording what parses, while more reports keep arriving. */
    method DrainReportPool(arrivals: seq<seq<AdvReport>>, clock: nat -> uint32)
      requires Valid()
      modifies `droppedReportCount, pool, pool.storage, events, events.storage, table, table.entries
      ensures Valid()
      ensures Contents() == Drained(old(Contents()), Setup(), arrivals, clock, 0)
      ensures pool.Contents() == []
    {
      hide OnReports, Recorded, RingQueue.Queue.Valid, RingQueue.Queue.Contents;
      ghost var s := Contents();
      var i := 0;
      while true
        invariant Valid()
        invariant Drained(s, Setup(), arrivals, clock, 0) == Drained(Contents(), Setup(), arrivals, clock, i)
        decreases if i < |arrivals| then |arrivals| - i else 0, |pool.Contents()|
      {
        NothingReceived(Contents(), pool.storage.Length);
        ReceiveAll(Batch(arrivals, i));
        var found := DrainTurn(clock(i));
        if !found {
          break;
        }
        i := i + 1;
      }
    }

    /** Handles one event of the service's port. Starting and stopping the scan is the radio's business. */
    method ExecuteEvent(arrivals: seq<seq<AdvReport>>, clock: nat -> uint32) returns (scan: seq<AcqEvent>)
      requires Valid() && events.Contents() != []
      modifies `droppedReportCount, pool, pool.storage, events, events.storage, table, table.entries
      ensures Valid()
      ensures Contents() == Executed(old(Contents()), Setup(), arrivals, clock)
      ensures var event := old(Contents()).events[0]; scan == if event == AdvReportAvailable then [] else [event]
    {
      hide Drained, RingQueue.Queue.Valid, RingQueue.Queue.Contents;
      var event, found := events.Pop();
      scan := [];
      match event {
        case StartScan => scan := [StartScan];
        case StopScan => scan := [StopScan];
        case AdvReportAvailable => DrainReportPool(arrivals, clock);
      }
    }
  }

  /** A report is stored and announced, or counted and not: a dropped one wakes nobody. */
  lemma ReportIsStoredOrCounted(s: Core, r: AdvReport, poolSize: nat)
    ensures var t := OnReport(s, r, poolSize);
            && t.table == s.table
            && (|s.pool| < poolSize ==>
                  t.pool == s.pool + [r] && t.dropped == s.dropped
                  && t.events == s.events + if |s.events| < 20 then [AdvReportAvailable] else [])
            && (|s.pool| >= poolSize ==>
                  t.pool == s.pool && t.events == s.events && t.dropped == Min(s.dropped + 1, 65535))
  {
    assert s.events + [] == s.events;
  }

  /** Handling a wake-up leaves the pool empty; handling a scan command touches neither pool nor table. */
  lemma WakeUpsDrain(s: Core, cfg: Settings, arrivals: seq<seq<AdvReport>>, clock: nat -> uint32)
    requires s.events != [] && |s.table.entries| > 0
    ensures var t := Executed(s, cfg, arrivals, clock);
            if s.events[0] == AdvReportAvailable then t.pool == []
            else t.pool == s.pool && t.table == s.table && t.dropped == s.dropped && t.events == s.events[1..]
  {
    hide Drained;
  }

  lemma NothingReceived(s: Core, poolSize: nat)
    ensures OnReports(s, [], poolSize) == s
  {
  }
}
