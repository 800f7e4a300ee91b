/** The two counters in a header: how many reports were dropped and how many devices evicted, up to the moment it was
    filled in. */
module HeaderCounts {
  import opened Words
  import opened Records
  import opened TableModel
  import opened Dispatch
  import opened CycleTrace
  import opened CycleLaws
  import opened Histories
  import opened Runs
  import opened EndToEnd
  import Delivery

  /** The protocol's steps of a cycle up to where the header of its uplink `k` is filled in. */
  function StepsBefore(cfg: Config, t: Table, c: Comms, env: Env, k: nat): seq<Delivery.Step>
    requires |t.entries| > 0
  {
    if !RoomForRecords(env) then HeardSteps(env.beforeFragment(0))
    else
      HeardSteps(env.beforeSnapshot) + ([Delivery.SnapshotTaken(env.snapshotClock, cfg.staleAfter)] +
      BeforeFragment(env, SnapshotOf(cfg, t, env), PerFragment(env.available), k))
  }

  function BeforeFragment(env: Env, snap: seq<Entry>, p: nat, k: nat): seq<Delivery.Step> {
    if snap == [] then HeardSteps(env.beforeFragment(0))
    else FragmentSteps(env, snap, p, k) + HeardSteps(env.beforeFragment(k))
  }

  lemma FrontOfSum<T>(a: seq<T>, b: seq<T>, c: seq<T>)
    requires b <= c
    ensures a + b <= a + c
  {
    assert (a + c)[..|a + b|] == a + b;
  }

  lemma {:induction false} FragmentStepsGrow(env: Env, snap: seq<Entry>, p: nat, k: nat, m: nat)
    requires k < m
    ensures FragmentSteps(env, snap, p, k) + HeardSteps(env.beforeFragment(k)) <= FragmentSteps(env, snap, p, m)
    decreases m
  {
    hide OneFragmentSteps;
    if k == m - 1 {
      OneFragmentBegins(env, snap, p, k);
      FrontOfSum(FragmentSteps(env, snap, p, k), HeardSteps(env.beforeFragment(k)), OneFragmentSteps(env, snap, p, k));
    } else {
      FragmentStepsGrow(env, snap, p, k, m - 1);
    }
  }

  lemma OneFragmentBegins(env: Env, snap: seq<Entry>, p: nat, k: nat)
    ensures HeardSteps(env.beforeFragment(k)) <= OneFragmentSteps(env, snap, p, k)
  {
  }

  lemma FragmentIsWithin(env: Env, snap: seq<Entry>, p: uint8, of: uint8, k: nat)
    requires k < of && k <= LeadingAccepts(env.accepts, 0, of)
    ensures FragmentSteps(env, snap, p, k) + HeardSteps(env.beforeFragment(k)) <= SendingSteps(env, snap, p, of)
  {
    hide FragmentSteps, HeardSteps, Piece;
    var m := LeadingAccepts(env.accepts, 0, of);
    if k < m {
      FragmentStepsGrow(env, snap, p, k, m);
    } else {
      var heard := HeardSteps(env.beforeFragment(m));
      FrontOfSum(FragmentSteps(env, snap, p, m), heard, heard + [Delivery.Sent(|Piece(snap, p, m)|, false)]);
    }
  }

  /** Those steps are how the cycle's own begin. */
  lemma StepsBeforeAreFirst(cfg: Config, t: Table, c: Comms, env: Env, k: nat)
    requires |t.entries| > 0 && k < |Cycle(cfg, t, c, env).uplinks| && Cycle(cfg, t, c, env).uplinks[k].Fragment?
    ensures StepsBefore(cfg, t, c, env, k) <= CycleSteps(cfg, t, c, env)
  {
    hide AfterAdverts, SnapshotOf, SendFragments, HeardSteps, SendingSteps, FragmentSteps;
    if RoomForRecords(env) {
      var snap, p := SnapshotOf(cfg, t, env), PerFragment(env.available);
      SnapshotStepsBegin(cfg, TableSnapped(t, env), c, env, snap, p, k);
      var before, now := BeforeFragment(env, snap, p, k), SnapshotSteps(cfg, c, env, snap, p);
      var taken := [Delivery.SnapshotTaken(env.snapshotClock, cfg.staleAfter)];
      hide BeforeFragment, SnapshotSteps;
      assert now <= now + [Delivery.Close];
      FrontOfSum(taken, before, now + [Delivery.Close]);
      FrontOfSum(HeardSteps(env.beforeSnapshot), taken + before, taken + (now + [Delivery.Close]));
    }
  }

  lemma SnapshotStepsBegin(cfg: Config, t: Table, c: Comms, env: Env, snap: seq<Entry>, p: uint8, k: nat)
    requires |t.entries| > 0 && p > 0 && k < |SendSnapshot(cfg, t, c, env, snap, p).uplinks|
    ensures BeforeFragment(env, snap, p, k) <= SnapshotSteps(cfg, c, env, snap, p)
  {
    hide HeardSteps, SendingSteps, FragmentSteps, UplinkAt, TableAt, TableAfter;
    if snap != [] {
      var of := FragmentCount(|snap|, p, env.maxUplinks);
      SendFragmentsAre(cfg, t, c.(sequence := Next16(c.sequence)), env, snap, p, of);
      FragmentIsWithin(env, snap, p, of, k);
    }
  }

  /** They lead to the table the header is filled in from. */
  lemma EvictedThen(s: Delivery.State, cfg: Config, c: Comms, env: Env, k: nat) returns (x: Delivery.State)
    requires Delivery.Shaped(s) && Between(s)
    requires k < |Cycle(cfg, s.table, c, env).uplinks| && Cycle(cfg, s.table, c, env).uplinks[k].Fragment?
    ensures Leads(s, StepsBefore(cfg, s.table, c, env, k), x)
    ensures Cycle(cfg, s.table, c, env).uplinks[k].header.evictedDevices == Min(x.table.evicted, 255)
  {
    hide Leads, AfterAdverts, FragmentSteps, Snapshot;
    if !RoomForRecords(env) {
      x := HeardLeads(s, env.beforeFragment(0));
    } else {
      var heard := HeardSteps(env.beforeSnapshot);
      var y := HeardLeads(s, env.beforeSnapshot);
      var taken := Delivery.SnapshotTaken(env.snapshotClock, cfg.staleAfter);
      var z := Delivery.Apply(y, taken);
      LeadsByOne(y, taken);
      var snap, p := SnapshotOf(cfg, s.table, env), PerFragment(env.available);
      SnapshotFlies(y, env.snapshotClock, cfg.staleAfter);
      x := EvictedAtFragment(z, cfg, c, env, snap, p, k);
      hide HeardSteps;
      LeadsOn(y, [taken], z, BeforeFragment(env, snap, p, k), x);
      LeadsOn(s, heard, y, [taken] + BeforeFragment(env, snap, p, k), x);
    }
  }

  lemma EvictedAtFragment(s: Delivery.State, cfg: Config, c: Comms, env: Env, snap: seq<Entry>, p: uint8, k: nat)
    returns (x: Delivery.State)
    requires Delivery.Shaped(s) && Flies(s, snap) && s.sent == s.acked == 0 && p > 0
    requires k < |SendSnapshot(cfg, s.table, c, env, snap, p).uplinks|
    ensures Leads(s, BeforeFragment(env, snap, p, k), x)
    ensures var u := SendSnapshot(cfg, s.table, c, env, snap, p).uplinks[k];
            u.Fragment? ==> u.header.evictedDevices == Min(x.table.evicted, 255)
  {
    hide Leads, AfterAdverts, FragmentSteps, TableAfter, Entries;
    if snap == [] {
      x := HeardLeads(s, env.beforeFragment(0));
    } else {
      var of := FragmentCount(|snap|, p, env.maxUplinks);
      forall i | 0 <= i < k ensures |Piece(snap, p, i)| > 0 {
        FragmentCountFits(|snap|, p, env.maxUplinks, i);
      }
      hide Piece;
      var y := FragmentsLead(s, env, snap, p, k);
      x := HeardLeads(y, env.beforeFragment(k));
      LeadsOn(s, FragmentSteps(env, snap, p, k), y, HeardSteps(env.beforeFragment(k)), x);
    }
  }

  // ---- Whole histories ----

  /** The run up to where the header of uplink `k` of cycle `i` is filled in. */
  ghost function RunBefore(cfg: Config, t: Table, c: Comms, envs: seq<Env>, outs: seq<Outcome>, i: nat,
                           k: nat): seq<Delivery.Step>
    requires IsHistory(cfg, t, c, envs, outs) && i < |outs|
  {
    var (now, statics) := Before(t, c, outs, i);
    StepsOf(cfg, t, c, envs, outs, i) + StepsBefore(cfg, now, statics, envs[i], k)
  }

  lemma {:induction false} StepsOfGrow(cfg: Config, t: Table, c: Comms, envs: seq<Env>, outs: seq<Outcome>, i: nat,
                                       n: nat)
    requires IsHistory(cfg, t, c, envs, outs) && i <= n <= |outs|
    ensures StepsOf(cfg, t, c, envs, outs, i) <= StepsOf(cfg, t, c, envs, outs, n)
    decreases n
  {
    hide CycleSteps, Cycle;
    if i < n {
      StepsOfGrow(cfg, t, c, envs, outs, i, n - 1);
    }
  }

  /** In every history from an empty table, the header of every uplink, heartbeats included, says how many reports the
      service had counted as dropped and how many devices the table had really evicted by then, each up to 255. The run
      it speaks of is how the run of the whole history begins. */
  lemma HeaderCountsAreTrue(slots: nat, cfg: Config, c: Comms, envs: seq<Env>, outs: seq<Outcome>, i: nat, k: nat)
    requires slots > 0 && IsHistory(cfg, Delivery.Init(slots).table, c, envs, outs)
    requires i < |outs| && k < |outs[i].uplinks| && outs[i].uplinks[k].Fragment?
    ensures var s := Delivery.Init(slots); var steps := RunBefore(cfg, s.table, c, envs, outs, i, k);
            && steps <= AllSteps(cfg, s.table, c, envs, outs)
            && Delivery.Shaped(s) && Delivery.Possible(s, steps)
            && outs[i].uplinks[k].header.evictedDevices == Min(Delivery.Run(s, steps).evictions, 255)
            && outs[i].uplinks[k].header.droppedAdvReports == Min(envs[i].dropped(k), 255)
  {
    var s := Delivery.Init(slots);
    InitialState(slots);
    HistoryStep(cfg, s.table, c, envs, outs, i);
    hide IsHistory, Cycle, StepsBefore, CycleSteps, Leads, Delivery.Init, Delivery.Possible;
    var (now, statics) := Before(s.table, c, outs, i);
    var y := FirstCyclesLead(s, cfg, c, envs, outs, i);
    var x := EvictedThen(y, cfg, statics, envs[i], k);
    var first, last := StepsOf(cfg, s.table, c, envs, outs, i), StepsBefore(cfg, now, statics, envs[i], k);
    LeadsOn(s, first, y, last, x);
    LeadsIsRun(s, first + last, x);
    HeadersAreTrue(cfg, now, statics, envs[i], k);
    StepsBeforeAreFirst(cfg, now, statics, envs[i], k);
    FrontOfSum(first, last, CycleSteps(cfg, now, statics, envs[i]));
    NextSteps(cfg, s.table, c, envs, outs, i);
    StepsOfGrow(cfg, s.table, c, envs, outs, i + 1, |outs|);
    CountIsTrue(slots, first + last);
  }

  lemma NextSteps(cfg: Config, t: Table, c: Comms, envs: seq<Env>, outs: seq<Outcome>, i: nat)
    requires IsHistory(cfg, t, c, envs, outs) && i < |outs|
    ensures var (now, statics) := Before(t, c, outs, i);
            && |now.entries| > 0
            && StepsOf(cfg, t, c, envs, outs, i + 1)
                  == StepsOf(cfg, t, c, envs, outs, i) + CycleSteps(cfg, now, statics, envs[i])
  {
    hide CycleSteps, Cycle;
  }

  /** The table's own counter is the true one, up to its ceiling. */
  lemma CountIsTrue(slots: nat, steps: seq<Delivery.Step>)
    requires slots > 0 && Delivery.Shaped(Delivery.Init(slots)) && Delivery.Possible(Delivery.Init(slots), steps)
    ensures var x := Delivery.Run(Delivery.Init(slots), steps); x.table.evicted == Min(x.evictions, 65535)
  {
    Delivery.InitBooks(slots);
    Delivery.RunKeepsBooks(Delivery.Init(slots), steps);
  }

  lemma {:induction false} AllUplinksAre(outs: seq<Outcome>, u: Uplink) returns (i: nat, k: nat)
    requires u in AllUplinks(outs)
    ensures i < |outs| && k < |outs[i].uplinks| && outs[i].uplinks[k] == u
    decreases |outs|
  {
    var n := |outs| - 1;
    if u in AllUplinks(outs[..n]) {
      i, k := AllUplinksAre(outs[..n], u);
    } else {
      i := n;
      k :| 0 <= k < |outs[n].uplinks| && outs[n].uplinks[k] == u;
    }
  }

  /** And that is what the server reads in the header of every fragment it decodes. */
  lemma ServerReadsTrueCounts(slots: nat, cfg: Config, c: Comms, envs: seq<Env>, outs: seq<Outcome>, maxFragment: uint8,
                              sessions: seq<Session>, x: nat, j: nat) returns (i: nat, k: nat)
    requires Deployed(slots, cfg, c, envs, outs, maxFragment, sessions)
    requires x < |sessions| && j < |Fragments(sessions[x])|
    ensures i < |outs| && k < |outs[i].uplinks|
    ensures var s := Delivery.Init(slots); var steps := RunBefore(cfg, s.table, c, envs, outs, i, k);
            var header := Fragments(sessions[x])[j].header;
            && outs[i].uplinks[k].Fragment? && header == outs[i].uplinks[k].header
            && Delivery.Shaped(s) && Delivery.Possible(s, steps)
            && header.evictedDevices == Min(Delivery.Run(s, steps).evictions, 255)
            && header.droppedAdvReports == Min(envs[i].dropped(k), 255)
  {
    var us := AllUplinks(outs);
    DeployedIsTruthful(slots, cfg, c, envs, outs, maxFragment, sessions);
    SessionsAreTruthful(us, maxFragment, sessions, x);
    ServerReadsAcceptedUplinks(sessions[x], maxFragment);
    var u := AcceptedOnes(sessions[x].us)[j];
    assert Reads(Fragments(sessions[x])[j], u);
    AcceptedOnesAre(sessions[x].us);
    assert u in AcceptedOnes(sessions[x].us);
    HandedAre(sessions);
    i, k := AllUplinksAre(outs, u);
    hide Deployed, Fragments, RunBefore, Delivery.Possible, Delivery.Run;
    assert slots > 0 && IsHistory(cfg, Delivery.Init(slots).table, c, envs,
                                  outs) by { DeployedIsHistory(slots, cfg, c, envs, outs, maxFragment, sessions); }
    HeaderCountsAreTrue(slots, cfg, c, envs, outs, i, k);
  }

  lemma DeployedIsHistory(slots: nat, cfg: Config, c: Comms, envs: seq<Env>, outs: seq<Outcome>, maxFragment: uint8,
                          sessions: seq<Session>)
    requires Deployed(slots, cfg, c, envs, outs, maxFragment, sessions)
    ensures slots > 0 && IsHistory(cfg, Delivery.Init(slots).table, c, envs, outs)
  {
  }
}
