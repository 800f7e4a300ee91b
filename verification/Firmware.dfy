/** The firmware as one machine: the application, the intake and the acknowledgement protocol take their steps in any
    order, over one table. The scan commands the intake handles are the ones the application posts, and what the table
    hears is what the intake drains. */
module Firmware {
  import opened Words
  import opened Records
  import opened TableModel
  import opened AdParser
  import opened Dispatch
  import opened Histories
  import opened Wrappers
  import opened Seqs
  import AppModel
  import Delivery
  import EndToEnd
  import Intake
  import Runs

  // ---- What draining records ----

  /** The advertisements that draining these reports records: those of the reports that parse. */
  function Adverts(ds: seq<Intake.Stamped>, company: uint16): seq<Advert> {
    if ds == [] then []
    else
      var d := ds[|ds| - 1];
      Adverts(ds[..|ds| - 1], company) +
      match Parse(d.report, company)
      case None => []
      case Some(reading) => [Advert(d.report.address, d.report.rssi, reading, d.time)]
  }

  lemma {:induction false} AdvertsLast(t: Table, ads: seq<Advert>, ad: Advert)
    requires |t.entries| > 0
    ensures AfterAdverts(t, ads + [ad]) == AfterAdvert(AfterAdverts(t, ads), ad)
    decreases ads
  {
    hide AfterAdvert;
    if ads == [] {
      assert [ad][1..] == [];
    } else {
      assert (ads + [ad])[1..] == ads[1..] + [ad];
      AdvertsLast(AfterAdvert(t, ads[0]), ads[1..], ad);
    }
  }

  /** The table the intake leaves is the one the acknowledgement protocol sees after these advertisements. */
  lemma {:induction false} ReplayIsAdverts(t: Table, ds: seq<Intake.Stamped>, company: uint16)
    requires |t.entries| > 0
    ensures Intake.Replay(t, ds, company) == AfterAdverts(t, Adverts(ds, company))
    decreases |ds|
  {
    hide AfterAdvert, AfterAdverts, Parse;
    if ds == [] {
      assert AfterAdverts(t, []) == t by { NoAdverts(t); }
    } else {
      var n := |ds| - 1;
      ReplayIsAdverts(t, ds[..n], company);
      var before, r := Adverts(ds[..n], company), ds[n].report;
      match Parse(r, company) {
        case None => assert before + [] == before;
        case Some(reading) => AdvertsLast(t, before, Advert(r.address, r.rssi, reading, ds[n].time));
      }
    }
  }

  lemma NoAdverts(t: Table)
    requires |t.entries| > 0
    ensures AfterAdverts(t, []) == t
  {
  }

  lemma {:induction false} AdvertsAreReports(ds: seq<Intake.Stamped>, company: uint16, n: nat) returns (i: nat)
    requires n < |Adverts(ds, company)|
    ensures i < |ds| && Parse(ds[i].report, company) == Some(Adverts(ds, company)[n].reading)
    ensures var ad := Adverts(ds, company)[n];
            ds[i].report.address == ad.address && ds[i].report.rssi == ad.rssi && ds[i].time == ad.time
    decreases |ds|
  {
    hide Parse;
    var m := |ds| - 1;
    if n < |Adverts(ds[..m], company)| {
      i := AdvertsAreReports(ds[..m], company, n);
    } else {
      i := m;
    }
  }

  // ---- The machine ----

  /** `intake.core.table` and `shared.table` are the one table, kept equal. */
  datatype State = State(app: AppModel.System, intake: Intake.State, shared: Delivery.State)

  datatype Step =
    | App(app: AppModel.Step)
    | Radio(radio: Intake.Step)      // the callback and the acquisition thread
    | Comms(comms: Delivery.Step)    // the snapshot, the sends and the acknowledgements

  function AsCommand(e: AppModel.ScanEvent): Intake.AcqEvent {
    match e
    case StartScan => Intake.StartScan
    case StopScan => Intake.StopScan
  }

  /** The intake after these scan commands have been posted to it. */
  function Commanded(s: Intake.State, es: seq<AppModel.ScanEvent>): Intake.State
    decreases es
  {
    if es == [] then s
    else
      Commanded(s.(core := Intake.Posted(s.core, AsCommand(es[0])), commands := s.commands + 1), es[1..])
  }

  function NewPosts(before: seq<AppModel.ScanEvent>, after: seq<AppModel.ScanEvent>): seq<AppModel.ScanEvent> {
    if |before| <= |after| then after[|before|..] else []
  }

  /** What a step does to the table, as steps of the acknowledgement protocol: at most one. */
  function ProtocolStep(setup: Intake.Settings, s: State, step: Step): seq<Delivery.Step> {
    match step
    case App(_) => []
    case Comms(st) => [st]
    case Radio(st) =>
      if st.DrainOne? && s.intake.core.pool != [] then
        var r := s.intake.core.pool[0];
        match Parse(r, setup.company)
        case None => []
        case Some(reading) => [Delivery.Heard(Advert(r.address, r.rssi, reading, st.now))]
      else []
  }

  predicate Enabled(s: State, step: Step) {
    match step
    case App(st) => AppModel.Enabled(s.app, st)
    case Radio(st) => !st.Command? && Intake.Enabled(s.intake, st)
    case Comms(st) => !st.Heard? && Delivery.Enabled(s.shared, st)
  }

  ghost function Apply(setup: Intake.Settings, s: State, step: Step): State
    requires Delivery.Shaped(s.shared) && Enabled(s, step)
  {
    match step
    case App(st) =>
      var app := AppModel.Apply(s.app, st);
      s.(app := app, intake := Commanded(s.intake, NewPosts(s.app.scanPosts, app.scanPosts)))
    case Radio(st) =>
      var heard := ProtocolStep(setup, s, step);
      s.(intake := Intake.Apply(setup, s.intake, st),
         shared := if heard == [] then s.shared else Delivery.Apply(s.shared, heard[0]))
    case Comms(st) =>
      var shared := Delivery.Apply(s.shared, st);
      s.(shared := shared, intake := s.intake.(core := s.intake.core.(table := shared.table)))
  }

  /** Power on: the application has entered its first state, and the table is empty. */
  function Boot(slots: nat, registered: bool): State {
    var app := AppModel.Init(registered);
    var shared := Delivery.Init(slots);
    State(app, Commanded(Intake.Init(shared.table), app.scanPosts), shared)
  }

  ghost predicate Possible(setup: Intake.Settings, s: State, steps: seq<Step>)
    decreases steps
  {
    Delivery.Shaped(s.shared) &&
    (steps == [] || (Enabled(s, steps[0]) && Possible(setup, Apply(setup, s, steps[0]), steps[1..])))
  }

  ghost function Run(setup: Intake.Settings, s: State, steps: seq<Step>): State
    requires Possible(setup, s, steps)
    decreases steps
  {
    if steps == [] then s else Run(setup, Apply(setup, s, steps[0]), steps[1..])
  }

  /** The acknowledgement protocol's part of a run. */
  ghost function ProtocolSteps(setup: Intake.Settings, s: State, steps: seq<Step>): seq<Delivery.Step>
    requires Possible(setup, s, steps)
    decreases steps
  {
    if steps == [] then []
    else ProtocolStep(setup, s, steps[0]) + ProtocolSteps(setup, Apply(setup, s, steps[0]), steps[1..])
  }

  // ---- Its table's part is a run of the protocol ----

  lemma {:induction false} ProtocolRuns(setup: Intake.Settings, s: State, steps: seq<Step>)
    requires Possible(setup, s, steps)
    ensures var ps := ProtocolSteps(setup, s, steps);
            && Delivery.Shaped(s.shared) && Delivery.Possible(s.shared, ps)
            && Delivery.Run(s.shared, ps) == Run(setup, s, steps).shared
    decreases steps
  {
    if steps != [] {
      var t := Apply(setup, s, steps[0]);
      var p, rest := ProtocolStep(setup, s, steps[0]), ProtocolSteps(setup, t, steps[1..]);
      ProtocolRuns(setup, t, steps[1..]);
      if p == [] {
        assert p + rest == rest && t.shared == s.shared;
      } else {
        assert p == [p[0]] && t.shared == Delivery.Apply(s.shared, p[0]);
        hide Apply, Delivery.Apply, Run, Possible, ProtocolSteps;
        Delivery.RunFirst(s.shared, p[0], rest);
      }
    }
  }

  // ---- What every run keeps ----

  /** The intake's books, with the table left to the protocol's. */
  ghost predicate Recorded(setup: Intake.Settings, s: State) {
    && Delivery.Shaped(s.shared)
    && s.intake.core.table == s.shared.table
    && s.shared.history == Adverts(s.intake.drained, setup.company)
    && s.intake.pooled == Intake.Reports(s.intake.drained) + s.intake.core.pool
    && s.intake.calls == |s.intake.pooled| + s.intake.drops
    && s.intake.core.dropped == Min(s.intake.drops, UINT16_MAX)
  }

  ghost predicate Served(s: State) {
    && AppModel.Orderly(s.app)
    && s.intake.commands == |s.app.scanPosts|
    && Intake.Bounded(s.intake) && Intake.NothingStranded(s.intake)
  }

  lemma {:induction false} CommandedIsServed(setup: Intake.Settings, s: Intake.State, es: seq<AppModel.ScanEvent>)
    requires Intake.Bounded(s) && Intake.NothingStranded(s)
    ensures var t := Commanded(s, es);
            && Intake.Bounded(t) && Intake.NothingStranded(t)
            && t == s.(core := s.core.(events := t.core.events), commands := s.commands + |es|)
    decreases es
  {
    if es != [] {
      Intake.StepStrandsNothing(setup, s, Intake.Command(AsCommand(es[0])));
      hide Intake.Bounded, Intake.NothingStranded;
      var x := Intake.Apply(setup, s, Intake.Command(AsCommand(es[0])));
      CommandedIsServed(setup, x, es[1..]);
    }
  }

  lemma StepIsServed(setup: Intake.Settings, s: State, step: Step)
    requires Delivery.Shaped(s.shared) && Enabled(s, step) && Served(s)
    ensures Served(Apply(setup, s, step))
  {
    assert |s.app.scanPosts| <= 2;
    hide AppModel.BacksOff, AppModel.CommsCommanded;
    match step
    case App(st) =>
      AppModel.StepStaysOrderly(s.app, st);
      AppModel.StepKeepsScanning(s.app, st);
      hide AppModel.Apply, Intake.Bounded, Intake.NothingStranded;
      CommandedIsServed(setup, s.intake, NewPosts(s.app.scanPosts, AppModel.Apply(s.app, st).scanPosts));
    case Radio(st) => Intake.StepStrandsNothing(setup, s.intake, st);
    case Comms(_) =>
  }

  lemma StepIsRecorded(setup: Intake.Settings, s: State, step: Step)
    requires Enabled(s, step) && Recorded(setup, s)
    ensures Recorded(setup, Apply(setup, s, step))
  {
    match step
    case App(st) =>
      CommandedKeepsBooks(s.intake, NewPosts(s.app.scanPosts, AppModel.Apply(s.app, st).scanPosts));
    case Radio(st) => RadioIsRecorded(setup, s, st);
    case Comms(st) => Delivery.ApplyKeepsShape(s.shared, st);
  }

  lemma {:induction false} CommandedKeepsBooks(s: Intake.State, es: seq<AppModel.ScanEvent>)
    ensures var t := Commanded(s, es);
            t == s.(core := s.core.(events := t.core.events), commands := s.commands + |es|)
    decreases es
  {
    if es != [] {
      var x := s.(core := Intake.Posted(s.core, AsCommand(es[0])), commands := s.commands + 1);
      CommandedKeepsBooks(x, es[1..]);
    }
  }

  lemma RadioIsRecorded(setup: Intake.Settings, s: State, st: Intake.Step)
    requires Enabled(s, Radio(st)) && Recorded(setup, s)
    ensures Recorded(setup, Apply(setup, s, Radio(st)))
  {
    hide Parse, AfterAdvert;
    var pool, drained := s.intake.core.pool, s.intake.drained;
    match st
    case Receive(r) => Assoc(Intake.Reports(drained), pool, [r]);
    case DrainOne(now) =>
      if pool != [] {
        DrainedNext(drained, pool, now, setup.company);
      }
    case _ =>
  }

  /** Draining one report: its books, and its advertisement if it has one. */
  lemma DrainedNext(drained: seq<Intake.Stamped>, pool: seq<AdvReport>, now: uint32, company: uint16)
    requires pool != []
    ensures var d := Intake.Stamped(pool[0], now);
            && Intake.Reports(drained) + pool == Intake.Reports(drained + [d]) + pool[1..]
            && Adverts(drained + [d], company) ==
               Adverts(drained, company) +
               match Parse(pool[0], company)
               case None => []
               case Some(reading) => [Advert(pool[0].address, pool[0].rssi, reading, now)]
  {
    hide Parse;
    var d := Intake.Stamped(pool[0], now);
    assert (drained + [d])[..|drained|] == drained;
    assert Intake.Reports(drained + [d]) == Intake.Reports(drained) + [pool[0]];
    Assoc(Intake.Reports(drained), [pool[0]], pool[1..]);
    assert [pool[0]] + pool[1..] == pool;
  }

  lemma {:induction false} RunKeeps(setup: Intake.Settings, s: State, steps: seq<Step>)
    requires Possible(setup, s, steps) && Recorded(setup, s) && Served(s)
    ensures Recorded(setup, Run(setup, s, steps)) && Served(Run(setup, s, steps))
    decreases steps
  {
    hide Recorded, Served, Apply, Enabled;
    if steps != [] {
      StepIsRecorded(setup, s, steps[0]);
      StepIsServed(setup, s, steps[0]);
      RunKeeps(setup, Apply(setup, s, steps[0]), steps[1..]);
    }
  }

  lemma BootKeeps(setup: Intake.Settings, slots: nat, registered: bool)
    requires slots > 0
    ensures Recorded(setup, Boot(slots, registered)) && Served(Boot(slots, registered))
  {
    var app, empty := AppModel.Init(registered), Intake.Init(Delivery.Init(slots).table);
    AppModel.InitIsOrderly(registered);
    CommandedIsServed(setup, empty, app.scanPosts);
    assert Intake.Reports([]) + [] == [];
  }

  /** No report is ever stranded: whatever the radio, the queues, the application and the link do, a report in the
      pool has the drain running, a post under way or a wake-up queued. Nothing is assumed of the run. */
  lemma NoReportIsEverStranded(setup: Intake.Settings, slots: nat, registered: bool, steps: seq<Step>)
    requires slots > 0 && Possible(setup, Boot(slots, registered), steps)
    ensures Intake.NothingStranded(Run(setup, Boot(slots, registered), steps).intake)
  {
    BootKeeps(setup, slots, registered);
    RunKeeps(setup, Boot(slots, registered), steps);
  }

  /** What the table has heard, over any run, is what the reports drained so far say, in order; those and the pooled
      ones are all that were received and not dropped. */
  lemma HeardIsDrained(setup: Intake.Settings, slots: nat, registered: bool, steps: seq<Step>)
    requires slots > 0 && Possible(setup, Boot(slots, registered), steps)
    ensures var s := Run(setup, Boot(slots, registered), steps);
            && s.shared.history == Adverts(s.intake.drained, setup.company)
            && s.intake.pooled == Intake.Reports(s.intake.drained) + s.intake.core.pool
            && s.intake.calls == |s.intake.drained| + |s.intake.core.pool| + s.intake.drops
            && s.intake.core.dropped == Min(s.intake.drops, UINT16_MAX)
  {
    BootKeeps(setup, slots, registered);
    RunKeeps(setup, Boot(slots, registered), steps);
  }

  // ---- From the radio to the server ----

  lemma {:induction false} PooledWereReceived(setup: Intake.Settings, s: State, steps: seq<Step>, r: AdvReport)
    requires Possible(setup, s, steps) && r in Run(setup, s, steps).intake.pooled
    ensures r in s.intake.pooled || Radio(Intake.Receive(r)) in steps
    decreases steps
  {
    if steps != [] {
      var t := Apply(setup, s, steps[0]);
      PooledWereReceived(setup, t, steps[1..], r);
      if r in t.intake.pooled {
        PoolGrowsByReceiving(setup, s, steps[0], r);
      }
    }
  }

  lemma PoolGrowsByReceiving(setup: Intake.Settings, s: State, step: Step, r: AdvReport)
    requires Delivery.Shaped(s.shared) && Enabled(s, step) && r in Apply(setup, s, step).intake.pooled
    ensures r in s.intake.pooled || step == Radio(Intake.Receive(r))
  {
    if step.App? {
      CommandedKeepsBooks(s.intake, NewPosts(s.app.scanPosts, AppModel.Apply(s.app, step.app).scanPosts));
    }
  }

  /** Every record the server decodes is the frame inside a report the radio delivered, with that report's address and
      strength: for every history of dispatch cycles that is what some run of the firmware does to the table. */
  lemma EveryRecordWasReceived(setup: Intake.Settings, slots: nat, registered: bool, steps: seq<Step>,
                               cfg: Config, c: Comms, envs: seq<Env>, outs: seq<Outcome>, maxFragment: uint8,
                               sessions: seq<EndToEnd.Session>, p: EndToEnd.Place)
    returns (r: AdvReport, reading: Reading)
    requires EndToEnd.Deployed(slots, cfg, c, envs, outs, maxFragment, sessions) && EndToEnd.HasRecord(sessions, p)
    requires Possible(setup, Boot(slots, registered), steps)
    requires ProtocolSteps(setup, Boot(slots, registered), steps)
             == Runs.AllSteps(cfg, Delivery.Init(slots).table, c, envs, outs)
    ensures Radio(Intake.Receive(r)) in steps && Parse(r, setup.company) == Some(reading)
    ensures EndToEnd.Says(EndToEnd.RecordAt(sessions, p), r.address, r.rssi, reading)
  {
    hide Parse, Adverts, IsHistory, EndToEnd.Transported, EndToEnd.HasRecord, Possible, Run, ProtocolSteps, Commanded;
    var boot := Boot(slots, registered);
    var s := Run(setup, boot, steps);
    HeardIsDrained(setup, slots, registered, steps);
    ProtocolRuns(setup, boot, steps);
    var n := EndToEnd.NothingIsInvented(slots, cfg, c, envs, outs, maxFragment, sessions, p);
    var i := AdvertsAreReports(s.intake.drained, setup.company, n);
    r, reading := s.intake.drained[i].report, Adverts(s.intake.drained, setup.company)[n].reading;
    assert s.intake.pooled[i] == r;
    BootIsEmpty(slots, registered);
    PooledWereReceived(setup, boot, steps, r);
  }

  lemma BootIsEmpty(slots: nat, registered: bool)
    ensures Boot(slots, registered).intake.pooled == []
  {
    CommandedKeepsBooks(Intake.Init(Delivery.Init(slots).table), AppModel.Init(registered).scanPosts);
  }
}
