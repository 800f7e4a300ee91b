/** A dispatch cycle is a run of the acknowledgement protocol: the steps it takes, in order, together with the
    advertisements that land between them, lead to the very table the cycle leaves behind, and what the protocol
    counts as accepted is what the accepted uplinks carry. */
module CycleTrace {
  import opened Words
  import opened Records
  import opened TableModel
  import opened Delivery
  import opened Dispatch
  import opened Seqs

  function HeardSteps(ads: seq<Advert>): seq<Step> {
    if ads == [] then [] else [Heard(ads[0])] + HeardSteps(ads[1..])
  }

  function AckSteps(env: Env, first: nat, k: nat): seq<Step> {
    if k == 0 then [] else AckSteps(env, first, k - 1) + (HeardSteps(env.beforeAck(first + k - 1)) + [Ack])
  }

  /** Fragment `f`, accepted and acknowledged. */
  function OneFragmentSteps(env: Env, snap: seq<Entry>, perFragment: nat, f: nat): seq<Step> {
    var n := |Piece(snap, perFragment, f)|;
    HeardSteps(env.beforeFragment(f)) + ([Sent(n, true)] + AckSteps(env, Start(|snap|, perFragment, f), n))
  }

  /** Fragments 0 to f-1, all accepted and acknowledged. */
  function FragmentSteps(env: Env, snap: seq<Entry>, perFragment: nat, f: nat): seq<Step> {
    if f == 0 then []
    else FragmentSteps(env, snap, perFragment, f - 1) + OneFragmentSteps(env, snap, perFragment, f - 1)
  }

  function SendingSteps(env: Env, snap: seq<Entry>, perFragment: uint8, of: uint8): seq<Step> {
    var m := LeadingAccepts(env.accepts, 0, of);
    if m == of then FragmentSteps(env, snap, perFragment, m)
    else
      FragmentSteps(env, snap, perFragment, m) +
      (HeardSteps(env.beforeFragment(m)) + [Sent(|Piece(snap, perFragment, m)|, false)])
  }

  function SnapshotSteps(cfg: Config, c: Comms, env: Env, snap: seq<Entry>, perFragment: uint8): seq<Step>
    requires perFragment > 0
  {
    if snap != [] then SendingSteps(env, snap, perFragment, FragmentCount(|snap|, perFragment, env.maxUplinks))
    else if HeartbeatDue(cfg, c, env.cycleClock) then HeardSteps(env.beforeFragment(0))
    else []
  }

  function CycleSteps(cfg: Config, t: Table, c: Comms, env: Env): seq<Step>
    requires |t.entries| > 0
  {
    if !RoomForHeader(env) then []
    else if PerFragment(env.available) == 0 then HeardSteps(env.beforeFragment(0))
    else
      HeardSteps(env.beforeSnapshot) + ([SnapshotTaken(env.snapshotClock, cfg.staleAfter)] +
      (SnapshotSteps(cfg, c, env, SnapshotOf(cfg, t, env), PerFragment(env.available)) + [Close]))
  }

  // ---- Runs ----

  ghost predicate Leads(s: State, steps: seq<Step>, r: State)
    decreases steps
  {
    Shaped(s) && if steps == [] then r == s else Enabled(s, steps[0]) && Leads(Apply(s, steps[0]), steps[1..], r)
  }

  lemma {:induction false} LeadsIsRun(s: State, steps: seq<Step>, r: State)
    requires Leads(s, steps, r)
    ensures Shaped(s) && Possible(s, steps) && Run(s, steps) == r
    decreases steps
  {
    if steps != [] {
      LeadsIsRun(Apply(s, steps[0]), steps[1..], r);
    }
  }

  lemma LeadsNowhere(s: State)
    requires Shaped(s)
    ensures Leads(s, [], s)
  {
  }

  lemma LeadsFirst(s: State, step: Step, rest: seq<Step>, r: State)
    requires Shaped(s) && Enabled(s, step) && Leads(Apply(s, step), rest, r)
    ensures Leads(s, [step] + rest, r)
  {
    hide Apply;
    assert ([step] + rest)[1..] == rest;
  }

  lemma {:induction false} LeadsOn(s: State, a: seq<Step>, x: State, b: seq<Step>, r: State)
    requires Leads(s, a, x) && Leads(x, b, r)
    ensures Leads(s, a + b, r)
    decreases a
  {
    hide Apply;
    if a == [] {
      assert a + b == b;
    } else {
      LeadsOn(Apply(s, a[0]), a[1..], x, b, r);
      LeadsFirst(s, a[0], a[1..] + b, r);
      assert [a[0]] + (a[1..] + b) == a + b;
    }
  }

  lemma LeadsByOne(s: State, step: Step)
    requires Shaped(s) && Enabled(s, step)
    ensures Leads(s, [step], Apply(s, step))
  {
    hide Apply;
    ApplyKeepsShape(s, step);
    assert [step][1..] == [];
  }

  /** The parts of the state an advertisement leaves alone. */
  predicate SameCycle(s: State, r: State) {
    r.flight == s.flight && r.sent == s.sent && r.acked == s.acked && r.accepted == s.accepted
  }

  lemma {:induction false} HeardLeads(s: State, ads: seq<Advert>) returns (r: State)
    requires Shaped(s)
    ensures Leads(s, HeardSteps(ads), r) && Shaped(r) && SameCycle(s, r) && r.table == AfterAdverts(s.table, ads)
    decreases ads
  {
    if ads == [] {
      r := s;
    } else {
      var x := Apply(s, Heard(ads[0]));
      LeadsByOne(s, Heard(ads[0]));
      r := HeardLeads(x, ads[1..]);
      LeadsOn(s, [Heard(ads[0])], x, HeardSteps(ads[1..]), r);
    }
  }

  /** The snapshot in flight is `snap`. */
  predicate Flies(s: State, snap: seq<Entry>) {
    |s.flight| == |snap| && forall k :: 0 <= k < |snap| ==> s.flight[k].entry == snap[k]
  }

  lemma OneAckLeads(s: State, ads: seq<Advert>, e: Entry) returns (r: State)
    requires Shaped(s) && s.acked < s.sent && s.flight[s.acked].entry == e
    ensures Leads(s, HeardSteps(ads) + [Ack], r) && Shaped(r)
    ensures r.flight == s.flight && r.sent == s.sent && r.acked == s.acked + 1 && r.accepted == s.accepted
    ensures var t := AfterAdverts(s.table, ads); r.table == t.(entries := Marked(t.entries, e.address, e.updateSeq))
  {
    var y := HeardLeads(s, ads);
    r := Apply(y, Ack);
    LeadsByOne(y, Ack);
    LeadsOn(s, HeardSteps(ads), y, [Ack], r);
  }

  lemma {:induction false} AcksLead(s: State, env: Env, es: seq<Entry>, first: nat, k: nat) returns (r: State)
    requires Shaped(s) && k <= |es|
    requires s.acked == first && s.sent == first + |es|
    requires forall i :: 0 <= i < |es| ==> s.flight[first + i].entry == es[i]
    ensures Leads(s, AckSteps(env, first, k), r) && Shaped(r)
    ensures r.flight == s.flight && r.sent == s.sent && r.acked == first + k && r.accepted == s.accepted
    ensures r.table == AckedTable(s.table, es, env, first, k)
    decreases k
  {
    hide Leads, AfterAdverts;
    if k == 0 {
      r := s;
      LeadsNowhere(s);
    } else {
      var x := AcksLead(s, env, es, first, k - 1);
      assert x.flight[x.acked].entry == es[k - 1];
      var ads := env.beforeAck(first + k - 1);
      var front, last := AckSteps(env, first, k - 1), HeardSteps(ads) + [Ack];
      assert AckSteps(env, first, k) == front + last;
      r := OneAckLeads(x, ads, es[k - 1]);
      LeadsOn(s, front, x, last, r);
    }
  }

  function Entries(cs: seq<Carried>): (r: seq<Entry>)
    ensures |r| == |cs|
  {
    seq(|cs|, i requires 0 <= i < |cs| => cs[i].entry)
  }

  lemma EntriesGrow(before: seq<Carried>, after: seq<Carried>, flight: seq<Carried>, snap: seq<Entry>,
                    from: nat, to: nat, earlier: seq<Entry>)
    requires from <= to <= |snap| == |flight|
    requires forall k :: 0 <= k < |snap| ==> flight[k].entry == snap[k]
    requires after == before + flight[from..to]
    requires Entries(before) == earlier + snap[..from]
    ensures Entries(after) == earlier + snap[..to]
  {
    assert Entries(after) == Entries(before) + snap[from..to];
    JoinSlices(snap, 0, from, to);
    Assoc(earlier, snap[..from], snap[from..to]);
  }

  /** One accepted fragment, from its header to its last acknowledgement. */
  lemma OneFragmentLeads(s: State, env: Env, ads: seq<Advert>, es: seq<Entry>) returns (r: State)
    requires Shaped(s) && s.acked == s.sent && 1 <= |es| <= |s.flight| - s.sent
    requires forall i :: 0 <= i < |es| ==> s.flight[s.sent + i].entry == es[i]
    ensures Leads(s, HeardSteps(ads) + ([Sent(|es|, true)] + AckSteps(env, s.sent, |es|)), r) && Shaped(r)
    ensures r.flight == s.flight && r.sent == r.acked == s.sent + |es|
    ensures r.accepted == s.accepted + s.flight[s.sent..s.sent + |es|]
    ensures r.table == AckedTable(AfterAdverts(s.table, ads), es, env, s.sent, |es|)
  {
    hide Leads, AfterAdverts, AckedTable;
    var y := HeardLeads(s, ads);
    var z := Apply(y, Sent(|es|, true));
    LeadsByOne(y, Sent(|es|, true));
    r := AcksLead(z, env, es, s.sent, |es|);
    LeadsOn(y, [Sent(|es|, true)], z, AckSteps(env, s.sent, |es|), r);
    LeadsOn(s, HeardSteps(ads), y, [Sent(|es|, true)] + AckSteps(env, s.sent, |es|), r);
  }

  /** Fragments 0 to f-1 of the snapshot have been accepted and acknowledged since `s`. */
  ghost predicate Reached(r: State, s: State, env: Env, snap: seq<Entry>, perFragment: nat, f: nat) {
    && Shaped(s)
    && Shaped(r)
    && r.flight == s.flight
    && r.sent == r.acked == Start(|snap|, perFragment, f)
    && r.table == TableAfter(s.table, env, snap, perFragment, f)
    && Entries(r.accepted) == Entries(s.accepted) + snap[..Start(|snap|, perFragment, f)]
  }

  lemma NextFragmentLeads(x: State, s: State, env: Env, snap: seq<Entry>, perFragment: nat, f: nat) returns (r: State)
    requires Reached(x, s, env, snap, perFragment, f)
    requires Flies(s, snap) && |Piece(snap, perFragment, f)| > 0
    ensures Leads(x, OneFragmentSteps(env, snap, perFragment, f), r)
    ensures Reached(r, s, env, snap, perFragment, f + 1)
  {
    hide Leads, AfterAdverts, AckedTable;
    var es := Piece(snap, perFragment, f);
    var ads := env.beforeFragment(f);
    var first, next := Start(|snap|, perFragment, f), Start(|snap|, perFragment, f + 1);
    assert TableAfter(s.table, env, snap, perFragment, f + 1) ==
           AckedTable(AfterAdverts(TableAfter(s.table, env, snap, perFragment, f), ads), es, env, first, |es|);
    r := OneFragmentLeads(x, env, ads, es);
    AcceptedGrows(x, r, s, snap, first, next);
  }

  lemma AcceptedGrows(x: State, r: State, s: State, snap: seq<Entry>, first: nat, next: nat)
    requires first <= next <= |snap| && Flies(s, snap)
    requires r.accepted == x.accepted + s.flight[first..next]
    requires Entries(x.accepted) == Entries(s.accepted) + snap[..first]
    ensures Entries(r.accepted) == Entries(s.accepted) + snap[..next]
  {
    EntriesGrow(x.accepted, r.accepted, s.flight, snap, first, next, Entries(s.accepted));
  }

  lemma NothingSentYet(s: State, env: Env, snap: seq<Entry>, perFragment: nat)
    requires Shaped(s) && s.sent == s.acked == 0
    ensures Reached(s, s, env, snap, perFragment, 0)
  {
  }

  lemma {:induction false} FragmentsLead(s: State, env: Env, snap: seq<Entry>, perFragment: nat, f: nat)
    returns (r: State)
    requires Shaped(s) && Flies(s, snap) && s.sent == s.acked == 0
    requires forall i :: 0 <= i < f ==> |Piece(snap, perFragment, i)| > 0
    ensures Leads(s, FragmentSteps(env, snap, perFragment, f), r)
    ensures Reached(r, s, env, snap, perFragment, f)
    decreases f
  {
    hide Leads, TableAfter, Entries, OneFragmentSteps;
    if f == 0 {
      r := s;
      LeadsNowhere(s);
      NothingSentYet(s, env, snap, perFragment);
    } else {
      var front, last := FragmentSteps(env, snap, perFragment, f - 1), OneFragmentSteps(env, snap, perFragment, f - 1);
      assert FragmentSteps(env, snap, perFragment, f) == front + last;
      var x := FragmentsLead(s, env, snap, perFragment, f - 1);
      r := NextFragmentLeads(x, s, env, snap, perFragment, f - 1);
      LeadsOn(s, front, x, last, r);
    }
  }

  /** The fragments of a snapshot up to a refusal, if there is one. */
  lemma SendingLeads(s: State, env: Env, snap: seq<Entry>, perFragment: uint8, of: uint8) returns (r: State)
    requires Shaped(s) && Flies(s, snap) && s.sent == s.acked == 0
    requires perFragment > 0 && snap != [] && of == FragmentCount(|snap|, perFragment, env.maxUplinks)
    ensures Leads(s, SendingSteps(env, snap, perFragment, of), r) && Shaped(r) && r.sent == r.acked
    ensures var m := LeadingAccepts(env.accepts, 0, of);
            && r.table == (if m < of then TableAt(s.table, env, snap, perFragment, m)
                           else TableAfter(s.table, env, snap, perFragment, of))
            && Entries(r.accepted) == Entries(s.accepted) + snap[..Start(|snap|, perFragment, m)]
  {
    hide Leads, TableAfter, AfterAdverts, Entries, FragmentSteps;
    var m := LeadingAccepts(env.accepts, 0, of);
    forall i | 0 <= i < of ensures |Piece(snap, perFragment, i)| > 0 {
      FragmentCountFits(|snap|, perFragment, env.maxUplinks, i);
    }
    r := FragmentsLead(s, env, snap, perFragment, m);
    if m < of {
      var n := |Piece(snap, perFragment, m)|;
      var x, ads := r, env.beforeFragment(m);
      r := HeardLeads(x, ads);
      LeadsByOne(r, Sent(n, false));
      LeadsOn(x, HeardSteps(ads), r, [Sent(n, false)], r);
      LeadsOn(s, FragmentSteps(env, snap, perFragment, m), x, HeardSteps(ads) + [Sent(n, false)], r);
    }
  }

  lemma SnapshotLeads(s: State, cfg: Config, c: Comms, env: Env, snap: seq<Entry>, perFragment: uint8)
    returns (r: State)
    requires Shaped(s) && Flies(s, snap) && s.sent == s.acked == 0
    requires perFragment > 0
    ensures Leads(s, SnapshotSteps(cfg, c, env, snap, perFragment), r) && Shaped(r) && r.sent == r.acked
    ensures var o := SendSnapshot(cfg, s.table, c, env, snap, perFragment);
            r.table == o.table && Entries(r.accepted) == Entries(s.accepted) + Accepted(o.uplinks)
  {
    hide Leads, TableAfter, AfterAdverts, Entries, HeaderFor;
    var o := SendSnapshot(cfg, s.table, c, env, snap, perFragment);
    if snap == [] {
      assert Accepted(o.uplinks) == [] by {
        assert Accepted([]) == [];
        assert o.uplinks != [] ==> Taken(o.uplinks[0]) == [] && o.uplinks[..0] == [];
      }
      if HeartbeatDue(cfg, c, env.cycleClock) {
        r := HeardLeads(s, env.beforeFragment(0));
      } else {
        r := s;
        LeadsNowhere(s);
      }
    } else {
      var of := FragmentCount(|snap|, perFragment, env.maxUplinks);
      r := SendingLeads(s, env, snap, perFragment, of);
      var c1 := c.(sequence := Next16(c.sequence));
      SendFragmentsAre(cfg, s.table, c1, env, snap, perFragment, of);
      FragmentsCarryPrefix(o.uplinks, cfg, c1, env, snap, perFragment, of);
    }
  }

  /** No snapshot is in flight. */
  predicate Between(s: State) {
    s.flight == [] && s.sent == s.acked == 0
  }

  /** A whole cycle, for every configuration and every behaviour of the link, the clock and the acquisition
      thread, starting from any state of the protocol between two cycles. */
  lemma CycleIsRun(s: State, cfg: Config, c: Comms, env: Env)
    requires Shaped(s) && Between(s)
    ensures var steps := CycleSteps(cfg, s.table, c, env); var o := Cycle(cfg, s.table, c, env);
            && Possible(s, steps)
            && var r := Run(s, steps);
               && Between(r)
               && r.table == o.table
               && Entries(r.accepted) == Entries(s.accepted) + Accepted(o.uplinks)
  {
    var r := CycleLeads(s, cfg, c, env);
    LeadsIsRun(s, CycleSteps(cfg, s.table, c, env), r);
  }

  lemma CycleLeads(s: State, cfg: Config, c: Comms, env: Env) returns (r: State)
    requires Shaped(s) && Between(s)
    ensures Leads(s, CycleSteps(cfg, s.table, c, env), r) && Shaped(r) && Between(r)
    ensures var o := Cycle(cfg, s.table, c, env);
            r.table == o.table && Entries(r.accepted) == Entries(s.accepted) + Accepted(o.uplinks)
  {
    hide Leads, AfterAdverts, Entries, SendSnapshot, SnapshotSteps, HeaderFor;
    var o := Cycle(cfg, s.table, c, env);
    if !RoomForRecords(env) {
      assert Accepted(o.uplinks) == [] by {
        assert Accepted([]) == [];
        assert o.uplinks != [] ==> Taken(o.uplinks[0]) == [] && o.uplinks[..0] == [];
      }
      if RoomForHeader(env) {
        r := HeardLeads(s, env.beforeFragment(0));
      } else {
        r := s;
        LeadsNowhere(s);
      }
    } else {
      var ads := env.beforeSnapshot;
      var x := HeardLeads(s, ads);
      var taken := SnapshotTaken(env.snapshotClock, cfg.staleAfter);
      var y := Apply(x, taken);
      LeadsByOne(x, taken);
      var snap := SnapshotOf(cfg, s.table, env);
      SnapshotFlies(x, env.snapshotClock, cfg.staleAfter);
      var z := SnapshotLeads(y, cfg, c, env, snap, PerFragment(env.available));
      r := Apply(z, Close);
      LeadsByOne(z, Close);
      var middle := SnapshotSteps(cfg, c, env, snap, PerFragment(env.available));
      LeadsOn(y, middle, z, [Close], r);
      LeadsOn(x, [taken], y, middle + [Close], r);
      LeadsOn(s, HeardSteps(ads), x, [taken] + (middle + [Close]), r);
    }
  }

  lemma SnapshotFlies(s: State, now: uint32, stale: uint32)
    requires Shaped(s) && s.flight == []
    ensures var es := s.table.entries; Flies(Apply(s, SnapshotTaken(now, stale)), Snapshot(es, now, stale, |es|))
  {
    SnapshotExact(s.table.entries, now, stale, |s.table.entries|);
  }
}
