/** Advert intake: the radio callback puts reports in a bounded pool and posts a wake-up; the acquisition thread
    takes events one by one and drains the pool. The pool and the event queue have different bounds, and both can
    overflow. */
module Intake {
  import opened Words
  import opened Records
  import opened TableModel
  import opened AdParser
  import opened Seqs
  import opened ActiveObject

  datatype AcqEvent = StartScan | StopScan | AdvReportAvailable

  /** What the acquisition service owns: the pool, its event queue, the visible drop counter and the table. */
  datatype Core = Core(pool: seq<AdvReport>, events: seq<AcqEvent>, dropped: uint16, table: Table)

  /** The first half of the callback: the put, or the count of the drop. */
  function Put(s: Core, r: AdvReport, poolSize: nat): Core {
    if |s.pool| >= poolSize then s.(dropped := if s.dropped < UINT16_MAX then s.dropped + 1 else s.dropped)
    else s.(pool := s.pool + [r])
  }

  /** Posting to the event queue; a full queue drops the event. */
  function Posted(s: Core, e: AcqEvent): Core {
    if |s.events| < QUEUE_LENGTH then s.(events := s.events + [e]) else s
  }

  /** What one report does to the table: an upsert if it parses, nothing otherwise. */
  function Recorded(t: Table, r: AdvReport, now: uint32, company: uint16): (t': Table)
    requires |t.entries| > 0
    ensures |t'.entries| == |t.entries|
  {
    match Parse(r, company)
    case None => t
    case Some(reading) => AfterAdvert(t, Advert(r.address, r.rssi, reading, now))
  }

  /** One turn of the drain loop on a non-empty pool. */
  function DrainedOne(s: Core, now: uint32, company: uint16): Core
    requires s.pool != [] && |s.table.entries| > 0
  {
    s.(pool := s.pool[1..], table := Recorded(s.table, s.pool[0], now, company))
  }

  // ---- The interleaving of the callback and the acquisition thread ----

  datatype Stamped = Stamped(report: AdvReport, time: uint32)

  datatype State = State(
    core: Core,
    posting: bool,           // the callback is between its put and its post
    draining: bool,          // the thread is inside its drain loop
    pooled: seq<AdvReport>,  // every report the pool ever took
    drained: seq<Stamped>,   // every report the thread ever got, and when
    drops: nat,              // how many the pool refused
    calls: nat,              // how many reports there were
    commands: nat)           // how many scan commands were ever posted

  datatype Step =
    | Receive(report: AdvReport)
    | Post
    | Command(event: AcqEvent)
    | Take
    | DrainOne(now: uint32)

  datatype Settings = Settings(poolSize: nat, company: uint16)

  function Init(t: Table): State {
    State(Core([], [], 0, t), false, false, [], [], 0, 0, 0)
  }

  predicate Enabled(s: State, step: Step) {
    match step
    case Receive(_) => !s.posting
    case Post => s.posting
    case Command(e) => e != AdvReportAvailable
    case Take => !s.draining && s.core.events != []
    case DrainOne(_) => s.draining && |s.core.table.entries| > 0
  }

  function Apply(cfg: Settings, s: State, step: Step): State
    requires Enabled(s, step)
  {
    match step
    case Receive(r) =>
      var full := |s.core.pool| >= cfg.poolSize;
      s.(core := Put(s.core, r, cfg.poolSize), posting := !full, calls := s.calls + 1,
         pooled := if full then s.pooled else s.pooled + [r],
         drops := if full then s.drops + 1 else s.drops)
    case Post => s.(core := Posted(s.core, AdvReportAvailable), posting := false)
    case Command(e) => s.(core := Posted(s.core, e), commands := s.commands + 1)
    case Take => s.(core := s.core.(events := s.core.events[1..]), draining := s.core.events[0].AdvReportAvailable?)
    case DrainOne(now) =>
      if s.core.pool == [] then s.(draining := false)
      else s.(core := DrainedOne(s.core, now, cfg.company), drained := s.drained + [Stamped(s.core.pool[0], now)])
  }

  ghost predicate Possible(cfg: Settings, s: State, steps: seq<Step>)
    decreases steps
  {
    steps == [] || (Enabled(s, steps[0]) && Possible(cfg, Apply(cfg, s, steps[0]), steps[1..]))
  }

  ghost function Run(cfg: Settings, s: State, steps: seq<Step>): State
    requires Possible(cfg, s, steps)
    decreases steps
  {
    if steps == [] then s else Run(cfg, Apply(cfg, s, steps[0]), steps[1..])
  }

  // ---- Nothing is stranded ----

  function CountCommands(events: seq<AcqEvent>): (n: nat)
    ensures n <= |events|
    ensures n == |events| ==> AdvReportAvailable !in events
    ensures n < |events| ==> AdvReportAvailable in events
  {
    if events == [] then 0
    else CountCommands(events[1..]) + if events[0].AdvReportAvailable? then 0 else 1
  }

  lemma {:induction false} CountOfPair(a: seq<AcqEvent>, e: AcqEvent)
    ensures CountCommands(a + [e]) == CountCommands(a) + if e.AdvReportAvailable? then 0 else 1
  {
    if a == [] {
      assert [e][1..] == [];
    } else {
      CountOfPair(a[1..], e);
      assert (a + [e])[1..] == a[1..] + [e];
    }
  }

  /** A report in the pool is about to be got, or something will make the thread look. */
  predicate NothingStranded(s: State) {
    s.core.pool != [] ==> s.draining || s.posting || AdvReportAvailable in s.core.events
  }

  /** What the queue holds, and how much of it can be commands. */
  predicate Bounded(s: State) {
    |s.core.events| <= QUEUE_LENGTH && CountCommands(s.core.events) <= s.commands
  }

  lemma StepStrandsNothing(cfg: Settings, s: State, step: Step)
    requires Enabled(s, step) && Bounded(s) && NothingStranded(s)
    requires step.Post? ==> s.commands < QUEUE_LENGTH
    ensures Bounded(Apply(cfg, s, step)) && NothingStranded(Apply(cfg, s, step))
  {
    match step
    case Post => CountOfPair(s.core.events, AdvReportAvailable);
    case Command(e) => CountOfPair(s.core.events, e);
    case _ =>
  }

  lemma {:induction false} CommandsGrow(cfg: Settings, s: State, steps: seq<Step>)
    requires Possible(cfg, s, steps)
    ensures s.commands <= Run(cfg, s, steps).commands
    decreases steps
  {
    hide Put, Posted, DrainedOne;
    if steps != [] {
      CommandsGrow(cfg, Apply(cfg, s, steps[0]), steps[1..]);
    }
  }

  lemma {:induction false} RunStrandsNothing(cfg: Settings, s: State, steps: seq<Step>)
    requires Possible(cfg, s, steps) && Bounded(s) && NothingStranded(s)
    requires Run(cfg, s, steps).commands < QUEUE_LENGTH
    ensures NothingStranded(Run(cfg, s, steps))
    decreases steps
  {
    hide Bounded, NothingStranded, Put, Posted, DrainedOne;
    if steps != [] {
      CommandsGrow(cfg, s, steps);
      StepStrandsNothing(cfg, s, steps[0]);
      RunStrandsNothing(cfg, Apply(cfg, s, steps[0]), steps[1..]);
    }
  }

  /** No report is ever stranded in a run with fewer than twenty scan commands, although wake-ups are dropped
      whenever the event queue is full: a queue full of fewer commands than it has slots holds a wake-up. */
  lemma NoStrandedReport(cfg: Settings, t: Table, steps: seq<Step>)
    requires Possible(cfg, Init(t), steps) && Run(cfg, Init(t), steps).commands < 20
    ensures NothingStranded(Run(cfg, Init(t), steps))
  {
    RunStrandsNothing(cfg, Init(t), steps);
  }

  function Commands(n: nat): (r: seq<Step>)
    ensures |r| == n
  {
    seq(n, i => Command(StartScan))
  }

  lemma {:induction false} CommandsFill(cfg: Settings, s: State, n: nat, rest: seq<Step>)
    requires |s.core.events| + n <= QUEUE_LENGTH && AdvReportAvailable !in s.core.events
    requires var events := s.core.events + seq(n, i => StartScan);
             Possible(cfg, s.(core := s.core.(events := events), commands := s.commands + n), rest)
    ensures var u := s.(core := s.core.(events := s.core.events + seq(n, i => StartScan)), commands := s.commands + n);
            Possible(cfg, s, Commands(n) + rest) && Run(cfg, s, Commands(n) + rest) == Run(cfg, u, rest)
    decreases n
  {
    var all := Commands(n) + rest;
    if n == 0 {
      assert all == rest && s.core.events + seq(0, i => StartScan) == s.core.events;
    } else {
      var x := Apply(cfg, s, Command(StartScan));
      assert all[0] == Command(StartScan) && all[1..] == Commands(n - 1) + rest;
      assert x.core.events + seq(n - 1, i => StartScan) == s.core.events + seq(n, i => StartScan);
      CommandsFill(cfg, x, n - 1, rest);
    }
  }

  /** Twenty commands are enough: they fill the queue, the wake-up is dropped and the report waits for the next
      advertisement to be noticed. */
  lemma TwentyCommandsStrand(cfg: Settings, t: Table, r: AdvReport)
    requires cfg.poolSize > 0
    ensures var steps := Commands(20) + [Receive(r), Post];
            Possible(cfg, Init(t), steps) && !NothingStranded(Run(cfg, Init(t), steps))
  {
    var events := [] + seq(QUEUE_LENGTH, i => StartScan);
    var u := Init(t).(core := Init(t).core.(events := events), commands := QUEUE_LENGTH);
    var x := Apply(cfg, u, Receive(r));
    var y := Apply(cfg, x, Post);
    assert [Receive(r), Post][1..] == [Post] && [Post][1..] == [];
    assert Possible(cfg, y, []) && Possible(cfg, x, [Post]);
    assert Possible(cfg, u, [Receive(r), Post]);
    assert Run(cfg, u, [Receive(r), Post]) == y;
    CommandsFill(cfg, Init(t), QUEUE_LENGTH, [Receive(r), Post]);
  }

  // ---- Nothing is lost without being counted ----

  function Reports(ds: seq<Stamped>): (r: seq<AdvReport>)
    ensures |r| == |ds|
  {
    seq(|ds|, i requires 0 <= i < |ds| => ds[i].report)
  }

  /** The table after recording the reports in order. */
  function Replay(t: Table, ds: seq<Stamped>, company: uint16): (t': Table)
    requires |t.entries| > 0
    ensures |t'.entries| == |t.entries|
  {
    if ds == [] then t
    else
      var n := |ds| - 1;
      Recorded(Replay(t, ds[..n], company), ds[n].report, ds[n].time, company)
  }

  ghost predicate Conserved(cfg: Settings, t: Table, s: State) {
    && |t.entries| > 0
    && s.calls == |s.pooled| + s.drops
    && s.pooled == Reports(s.drained) + s.core.pool
    && s.core.dropped == Min(s.drops, UINT16_MAX)
    && s.core.table == Replay(t, s.drained, cfg.company)
  }

  lemma StepConserves(cfg: Settings, t: Table, s: State, step: Step)
    requires Enabled(s, step) && Conserved(cfg, t, s)
    ensures Conserved(cfg, t, Apply(cfg, s, step))
  {
    hide Recorded;
    match step
    case Receive(r) =>
      Assoc(Reports(s.drained), s.core.pool, [r]);
    case DrainOne(now) =>
      if s.core.pool != [] {
        var d := Stamped(s.core.pool[0], now);
        assert (s.drained + [d])[..|s.drained|] == s.drained;
        assert Reports(s.drained + [d]) == Reports(s.drained) + [s.core.pool[0]];
        Assoc(Reports(s.drained), [s.core.pool[0]], s.core.pool[1..]);
        assert [s.core.pool[0]] + s.core.pool[1..] == s.core.pool;
      }
    case _ =>
  }

  lemma {:induction false} RunConserves(cfg: Settings, t: Table, s: State, steps: seq<Step>)
    requires Possible(cfg, s, steps) && Conserved(cfg, t, s)
    ensures Conserved(cfg, t, Run(cfg, s, steps))
    decreases steps
  {
    hide Conserved, Put, Posted, DrainedOne;
    if steps != [] {
      StepConserves(cfg, t, s, steps[0]);
      RunConserves(cfg, t, Apply(cfg, s, steps[0]), steps[1..]);
    }
  }

  /** In every run, the reports received are those pooled, drained or dropped, in order, with the visible drop
      counter the true one up to its ceiling; and once the pool is empty the table is the in-order replay of
      exactly the reports that were not dropped, of which those that do not parse change nothing. */
  lemma EveryReportIsAccountedFor(cfg: Settings, t: Table, steps: seq<Step>)
    requires |t.entries| > 0 && Possible(cfg, Init(t), steps)
    ensures var s := Run(cfg, Init(t), steps);
            && s.calls == |s.core.pool| + |s.drained| + s.drops
            && s.core.dropped == Min(s.drops, 65535)
            && s.core.table == Replay(t, s.drained, cfg.company)
            && s.pooled == Reports(s.drained) + s.core.pool
            && (s.core.pool == [] ==> Reports(s.drained) == s.pooled)
  {
    assert Reports([]) + [] == [];
    RunConserves(cfg, t, Init(t), steps);
    var s := Run(cfg, Init(t), steps);
    assert Reports(s.drained) + [] == Reports(s.drained);
  }
}
