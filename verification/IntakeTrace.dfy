/** The acquisition service's turns are runs of the intake: its callback is a put and a post, its drain loop a run of
    single drains with reports received in between, its event handler a take before that. */
module IntakeTrace {
  import opened Words
  import opened TableModel
  import opened AdParser
  import opened ActiveObject
  import opened Intake
  import Acquisition

  ghost predicate Leads(cfg: Settings, s: State, steps: seq<Step>, t: State) {
    Possible(cfg, s, steps) && Run(cfg, s, steps) == t
  }

  lemma LeadsNowhere(cfg: Settings, s: State)
    ensures Leads(cfg, s, [], s)
  {
  }

  lemma LeadsByOne(cfg: Settings, s: State, step: Step)
    requires Enabled(s, step)
    ensures Leads(cfg, s, [step], Apply(cfg, s, step))
  {
    hide Apply;
    assert [step][1..] == [];
    LeadsNowhere(cfg, Apply(cfg, s, step));
    assert Possible(cfg, s, [step]);
  }

  lemma {:induction false} LeadsOn(cfg: Settings, s: State, a: seq<Step>, x: State, b: seq<Step>, t: State)
    requires Leads(cfg, s, a, x) && Leads(cfg, x, b, t)
    ensures Leads(cfg, s, a + b, t)
    decreases a
  {
    hide Apply, Enabled;
    if a == [] {
      assert a + b == b;
    } else {
      LeadsOn(cfg, Apply(cfg, s, a[0]), a[1..], x, b, t);
      assert (a + b)[1..] == a[1..] + b;
    }
  }

  /** What receiving reports leaves of the state besides the queues and counters: the callback is over, the thread is
      where it was. */
  predicate SameThread(s: State, t: State) {
    !t.posting && t.draining == s.draining && t.commands == s.commands && t.drained == s.drained
  }

  lemma ReportLeads(cfg: Settings, s: State, r: AdvReport) returns (steps: seq<Step>, t: State)
    requires !s.posting
    ensures Leads(cfg, s, steps, t) && SameThread(s, t) && t.core == Acquisition.OnReport(s.core, r, cfg.poolSize)
  {
    var x := Apply(cfg, s, Receive(r));
    LeadsByOne(cfg, s, Receive(r));
    steps, t := [Receive(r)], x;
    if x.posting {
      t := Apply(cfg, x, Post);
      LeadsByOne(cfg, x, Post);
      LeadsOn(cfg, s, [Receive(r)], x, [Post], t);
      steps := [Receive(r)] + [Post];
    }
  }

  lemma {:induction false} BatchLeads(cfg: Settings, s: State, rs: seq<AdvReport>) returns (steps: seq<Step>, t: State)
    requires !s.posting
    ensures Leads(cfg, s, steps, t) && SameThread(s, t) && t.core == Acquisition.OnReports(s.core, rs, cfg.poolSize)
    decreases |rs|
  {
    hide Leads, Acquisition.OnReport;
    if rs == [] {
      steps, t := [], s;
      LeadsNowhere(cfg, s);
    } else {
      var front, x := BatchLeads(cfg, s, rs[..|rs| - 1]);
      var last;
      last, t := ReportLeads(cfg, x, rs[|rs| - 1]);
      LeadsOn(cfg, s, front, x, last, t);
      steps := front + last;
    }
  }

  /** The drain loop is a run. It ends with the thread no longer draining and nothing half received. */
  lemma {:induction false} DrainedIsRun(cfg: Settings, s: State, arrivals: seq<seq<AdvReport>>, clock: nat -> uint32,
                                        i: nat) returns (steps: seq<Step>, t: State)
    requires s.draining && !s.posting && |s.core.table.entries| > 0
    ensures Possible(cfg, s, steps) && t == Run(cfg, s, steps)
    ensures t.core == Acquisition.Drained(s.core, cfg, arrivals, clock, i)
    ensures !t.draining && !t.posting && t.commands == s.commands
    decreases if i < |arrivals| then |arrivals| - i else 0, |s.core.pool|
  {
    var before, x := BatchLeads(cfg, s, Acquisition.Batch(arrivals, i));
    var step := DrainOne(clock(i));
    var y := Apply(cfg, x, step);
    LeadsByOne(cfg, x, step);
    LeadsOn(cfg, s, before, x, [step], y);
    if x.core.pool == [] {
      steps, t := before + [step], y;
    } else {
      ReceivedNothingMore(s.core, Acquisition.Batch(arrivals, i), cfg.poolSize, arrivals, i);
      var rest;
      rest, t := DrainedIsRun(cfg, y, arrivals, clock, i + 1);
      LeadsOn(cfg, s, before + [step], y, rest, t);
      steps := before + [step] + rest;
    }
  }

  /** Once no more reports arrive, a turn of the loop shrinks the pool. */
  lemma ReceivedNothingMore(s: Core, rs: seq<AdvReport>, poolSize: nat, arrivals: seq<seq<AdvReport>>, i: nat)
    requires rs == Acquisition.Batch(arrivals, i)
    ensures i >= |arrivals| ==> Acquisition.OnReports(s, rs, poolSize) == s
  {
  }

  /** Handling an event is a run: a take, and the drain if the event was a wake-up. */
  lemma ExecutedIsRun(cfg: Settings, s: State, arrivals: seq<seq<AdvReport>>, clock: nat -> uint32)
    returns (steps: seq<Step>, t: State)
    requires !s.draining && !s.posting && s.core.events != [] && |s.core.table.entries| > 0
    ensures Possible(cfg, s, steps) && t == Run(cfg, s, steps)
    ensures t.core == Acquisition.Executed(s.core, cfg, arrivals, clock)
    ensures !t.draining && !t.posting && t.commands == s.commands
  {
    var x := Apply(cfg, s, Take);
    LeadsByOne(cfg, s, Take);
    steps, t := [Take], x;
    if x.draining {
      var rest;
      rest, t := DrainedIsRun(cfg, x, arrivals, clock, 0);
      LeadsOn(cfg, s, [Take], x, rest, t);
      steps := [Take] + rest;
    }
  }

  // ---- The service from start-up on ----

  /** One turn: a report from the radio, a scan command, or the handling of an event, with whatever arrives during
      it. */
  datatype Turn =
    | Report(report: AdvReport)
    | Command(event: AcqEvent)
    | Handle(arrivals: seq<seq<AdvReport>>, clock: nat -> uint32)

  function After(s: Core, cfg: Settings, turn: Turn): Core
    requires |s.table.entries| > 0
  {
    match turn
    case Report(r) => Acquisition.OnReport(s, r, cfg.poolSize)
    case Command(e) => if e == AdvReportAvailable then s else Posted(s, e)
    case Handle(arrivals, clock) => if s.events == [] then s else Acquisition.Executed(s, cfg, arrivals, clock)
  }

  function AfterAll(s: Core, cfg: Settings, turns: seq<Turn>): (t: Core)
    requires |s.table.entries| > 0
    ensures |t.table.entries| == |s.table.entries|
  {
    if turns == [] then s else After(AfterAll(s, cfg, turns[..|turns| - 1]), cfg, turns[|turns| - 1])
  }

  function Commands(turns: seq<Turn>): nat {
    if turns == [] then 0
    else
      Commands(turns[..|turns| - 1]) +
      var turn := turns[|turns| - 1];
      if turn.Command? && turn.event != AdvReportAvailable then 1 else 0
  }

  lemma TurnLeads(cfg: Settings, s: State, turn: Turn) returns (steps: seq<Step>, t: State)
    requires !s.draining && !s.posting && |s.core.table.entries| > 0
    ensures Leads(cfg, s, steps, t) && !t.draining && !t.posting
    ensures t.core == After(s.core, cfg, turn)
    ensures t.commands == s.commands + Commands([turn])
  {
    assert [turn][..0] == [];
    match turn
    case Report(r) => steps, t := ReportLeads(cfg, s, r);
    case Command(e) =>
      steps, t := [], s;
      if e != AdvReportAvailable {
        steps, t := [Intake.Command(e)], Apply(cfg, s, Intake.Command(e));
        LeadsByOne(cfg, s, Intake.Command(e));
      }
    case Handle(arrivals, clock) =>
      steps, t := [], s;
      if s.core.events != [] {
        steps, t := ExecutedIsRun(cfg, s, arrivals, clock);
      }
  }

  /** Any sequence of turns of the service, from any table, is a run of the intake. */
  lemma {:induction false} TurnsAreRun(cfg: Settings, table: Table, turns: seq<Turn>)
    returns (steps: seq<Step>, t: State)
    requires |table.entries| > 0
    ensures Possible(cfg, Init(table), steps) && t == Run(cfg, Init(table), steps)
    ensures t.core == AfterAll(Init(table).core, cfg, turns)
    ensures !t.draining && !t.posting && t.commands == Commands(turns)
    decreases |turns|
  {
    if turns == [] {
      steps, t := [], Init(table);
    } else {
      var n := |turns| - 1;
      var front, x := TurnsAreRun(cfg, table, turns[..n]);
      var last;
      last, t := TurnLeads(cfg, x, turns[n]);
      assert [turns[n]][..0] == [];
      LeadsOn(cfg, Init(table), front, x, last, t);
      steps := front + last;
    }
  }

  /** So between its turns the service itself strands nothing and loses nothing uncounted: a report in the pool has a
      wake-up in the queue, and the table is the replay of exactly the reports that were pooled and are gone. */
  lemma ServiceStrandsNothing(cfg: Settings, table: Table, turns: seq<Turn>)
    returns (pooled: seq<AdvReport>, drained: seq<Stamped>)
    requires |table.entries| > 0 && Commands(turns) < QUEUE_LENGTH
    ensures var s := AfterAll(Init(table).core, cfg, turns);
            && (s.pool != [] ==> AdvReportAvailable in s.events)
            && pooled == Reports(drained) + s.pool
            && s.table == Replay(table, drained, cfg.company)
  {
    hide Replay;
    var steps, t := TurnsAreRun(cfg, table, turns);
    NoStrandedReport(cfg, table, steps);
    EveryReportIsAccountedFor(cfg, table, steps);
    pooled, drained := t.pooled, t.drained;
  }
}
