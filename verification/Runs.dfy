/** Any number of dispatch cycles as one run of the acknowledgement protocol. */
module Runs {
  import opened TableModel
  import opened Dispatch
  import opened CycleTrace
  import opened Histories
  import opened Seqs
  import Delivery

  /** Everything handed to the link over the cycles. */
  function AllUplinks(outs: seq<Outcome>): seq<Uplink> {
    if outs == [] then [] else AllUplinks(outs[..|outs| - 1]) + outs[|outs| - 1].uplinks
  }

  function LastTable(t: Table, c: Comms, outs: seq<Outcome>): Table {
    Before(t, c, outs, |outs|).0
  }

  /** The protocol's steps during the first `n` cycles of a history. */
  ghost function StepsOf(cfg: Config, t: Table, c: Comms, envs: seq<Env>, outs: seq<Outcome>,
                         n: nat): seq<Delivery.Step>
    requires IsHistory(cfg, t, c, envs, outs) && n <= |outs|
  {
    if n == 0 then []
    else
      var (now, statics) := Before(t, c, outs, n - 1);
      StepsOf(cfg, t, c, envs, outs, n - 1) + CycleSteps(cfg, now, statics, envs[n - 1])
  }

  ghost function AllSteps(cfg: Config, t: Table, c: Comms, envs: seq<Env>, outs: seq<Outcome>): seq<Delivery.Step>
    requires IsHistory(cfg, t, c, envs, outs)
  {
    StepsOf(cfg, t, c, envs, outs, |outs|)
  }

  lemma {:induction false} AcceptedOfBoth(a: seq<Uplink>, b: seq<Uplink>)
    ensures Accepted(a + b) == Accepted(a) + Accepted(b)
  {
    if b == [] {
      assert a + b == a;
    } else {
      var n := |b| - 1;
      AcceptedOfBoth(a, b[..n]);
      assert (a + b)[..|a + b| - 1] == a + b[..n];
      Assoc(Accepted(a), Accepted(b[..n]), Taken(b[n]));
    }
  }

  lemma {:induction false} FirstCyclesLead(s: Delivery.State, cfg: Config, c: Comms, envs: seq<Env>,
                                           outs: seq<Outcome>, n: nat)
    returns (r: Delivery.State)
    requires Delivery.Shaped(s) && Between(s)
    requires IsHistory(cfg, s.table, c, envs, outs) && n <= |outs|
    ensures Leads(s, StepsOf(cfg, s.table, c, envs, outs, n), r) && Delivery.Shaped(r) && Between(r)
    ensures r.table == Before(s.table, c, outs, n).0
    ensures Entries(r.accepted) == Entries(s.accepted) + Accepted(AllUplinks(outs[..n]))
    decreases n
  {
    hide Leads, Cycle, CycleSteps, Entries;
    if n == 0 {
      r := s;
      LeadsNowhere(s);
      assert Entries(s.accepted) + [] == Entries(s.accepted);
    } else {
      var m := n - 1;
      var statics := Before(s.table, c, outs, m).1;
      var x := FirstCyclesLead(s, cfg, c, envs, outs, m);
      r := CycleLeads(x, cfg, statics, envs[m]);
      LeadsOn(s, StepsOf(cfg, s.table, c, envs, outs, m), x, CycleSteps(cfg, x.table, statics, envs[m]), r);
      var before, now := AllUplinks(outs[..m]), outs[m].uplinks;
      assert outs[..n][..m] == outs[..m] && AllUplinks(outs[..n]) == before + now;
      AcceptedOfBoth(before, now);
      Assoc(Entries(s.accepted), Accepted(before), Accepted(now));
    }
  }

  /** Any number of cycles is a run of the acknowledgement protocol, and what the protocol counts as accepted is
      what the accepted uplinks carry. */
  lemma CyclesLead(s: Delivery.State, cfg: Config, c: Comms, envs: seq<Env>, outs: seq<Outcome>)
    returns (r: Delivery.State)
    requires Delivery.Shaped(s) && Between(s)
    requires IsHistory(cfg, s.table, c, envs, outs)
    ensures var steps := AllSteps(cfg, s.table, c, envs, outs);
            Delivery.Possible(s, steps) && r == Delivery.Run(s, steps)
    ensures Delivery.Shaped(r) && Between(r)
    ensures r.table == LastTable(s.table, c, outs)
    ensures Entries(r.accepted) == Entries(s.accepted) + Accepted(AllUplinks(outs))
  {
    r := FirstCyclesLead(s, cfg, c, envs, outs, |outs|);
    assert outs[..|outs|] == outs;
    LeadsIsRun(s, AllSteps(cfg, s.table, c, envs, outs), r);
  }
}
