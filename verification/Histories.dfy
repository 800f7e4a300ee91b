/** Whole runs of dispatch cycles. */
module Histories {
  import opened Words
  import opened Records
  import opened TableModel
  import opened Dispatch

  /** What the device holds before cycle `i`. */
  function Before(t: Table, c: Comms, outs: seq<Outcome>, i: nat): (r: (Table, Comms))
    requires i <= |outs|
  {
    if i == 0 then (t, c) else (outs[i - 1].table, outs[i - 1].comms)
  }

  /** `outs` are the outcomes of the cycles the environments `envs` ask for, from table `t` and statics `c`. */
  ghost predicate IsHistory(cfg: Config, t: Table, c: Comms, envs: seq<Env>, outs: seq<Outcome>) {
    && |envs| == |outs|
    && |t.entries| > 0
    && (forall i :: 0 <= i < |outs| ==> |Before(t, c, outs, i).0.entries| == |t.entries|)
    && (forall i :: 0 <= i < |outs| ==>
          outs[i] == Cycle(cfg, Before(t, c, outs, i).0, Before(t, c, outs, i).1, envs[i]))
  }

  lemma HistoryStep(cfg: Config, t: Table, c: Comms, envs: seq<Env>, outs: seq<Outcome>, i: nat)
    requires IsHistory(cfg, t, c, envs, outs) && i < |outs|
    ensures |Before(t, c, outs, i).0.entries| == |t.entries| > 0 && |envs| == |outs|
    ensures outs[i] == Cycle(cfg, Before(t, c, outs, i).0, Before(t, c, outs, i).1, envs[i])
    ensures Before(t, c, outs, i + 1) == (outs[i].table, outs[i].comms)
  {
    hide Cycle;
  }

  /** Whether the far end has something to read from this cycle. */
  predicate Visible(o: Outcome) {
    exists k :: 0 <= k < |o.uplinks| && o.uplinks[k].Fragment? && o.uplinks[k].accepted
  }

  // ---- Sequence numbers and the boot flag ----

  /** What one cycle does to the numbering: its fragments all carry the number the cycle ends with, are counted
      from zero, and are flagged BOOT together or not at all. */
  ghost predicate Numbers(cfg: Config, c: Comms, o: Outcome) {
    && (o.comms.sequence == c.sequence || o.comms.sequence == Next16(c.sequence))
    && (o.comms.bootSent <==> c.bootSent || Visible(o))
    && (forall k :: 0 <= k < |o.uplinks| && o.uplinks[k].Fragment? ==>
          && o.uplinks[k].header.sequence == o.comms.sequence == Next16(c.sequence)
          && o.uplinks[k].header.fragmentIndex == k
          && (HasBoot(o.uplinks[k].header) <==> cfg.reportBoot && !c.bootSent))
  }

  lemma SnapshotCycleNumbers(cfg: Config, t: Table, c: Comms, env: Env, snap: seq<Entry>, p: uint8)
    requires |t.entries| > 0 && snap != [] && p > 0
    ensures Numbers(cfg, c, SendSnapshot(cfg, t, c, env, snap, p))
  {
    hide TableAfter, TableAt, UplinkAt;
    var of := FragmentCount(|snap|, p, env.maxUplinks);
    var c1 := c.(sequence := Next16(c.sequence));
    var m := LeadingAccepts(env.accepts, 0, of);
    var o := SendFragments(cfg, t, c1, env, snap, p, of);
    SendFragmentsAre(cfg, t, c1, env, snap, p, of);
    forall k | 0 <= k < |o.uplinks|
      ensures o.uplinks[k].Fragment? && o.uplinks[k].header.sequence == c1.sequence
              && o.uplinks[k].header.fragmentIndex == k && o.uplinks[k].accepted == (k < m)
              && (HasBoot(o.uplinks[k].header) <==> cfg.reportBoot && !c.bootSent)
    {
      assert IsFragment(o.uplinks[k], cfg, c1, env, Piece(snap, p, k), k, of, k < m);
    }
    FragmentCountFits(|snap|, p, env.maxUplinks, 0);
    assert o.sent > 0 <==> m > 0 by { SentGrows(|snap|, p, m); }
    assert m > 0 ==> o.uplinks[0].accepted;
  }

  lemma {:induction false} SentGrows(total: nat, p: nat, m: nat)
    requires total > 0 && p > 0
    ensures Start(total, p, m) > 0 <==> m > 0
  {
    if m > 0 {
      SentGrows(total, p, m - 1);
    }
  }

  lemma CycleNumbers(cfg: Config, t: Table, c: Comms, env: Env)
    requires |t.entries| > 0
    ensures Numbers(cfg, c, Cycle(cfg, t, c, env))
  {
    hide AfterAdverts, SnapshotOf, SendFragments;
    if RoomForRecords(env) && SnapshotOf(cfg, t, env) != [] {
      SnapshotCycleNumbers(cfg, TableSnapped(t, env), c, env, SnapshotOf(cfg, t, env), PerFragment(env.available));
    } else {
      var o := Cycle(cfg, t, c, env);
      assert |o.uplinks| <= 1;
      assert Visible(o) ==> o.uplinks[0].Fragment? && o.uplinks[0].accepted;
      assert |o.uplinks| == 1 && o.uplinks[0].Fragment? && o.uplinks[0].accepted ==> Visible(o);
    }
  }

  /** Every uplink with a header declares what it carries, and is flagged HEARTBEAT exactly when that is nothing. */
  ghost predicate HonestFlags(u: Uplink) {
    u.Fragment? ==> u.header.recordCount == |u.carried| && (HasHeartbeat(u.header) <==> u.carried == [])
  }

  lemma HeartbeatMeansEmpty(cfg: Config, t: Table, c: Comms, env: Env, k: nat)
    requires |t.entries| > 0 && k < |Cycle(cfg, t, c, env).uplinks|
    ensures HonestFlags(Cycle(cfg, t, c, env).uplinks[k])
  {
    hide AfterAdverts, SnapshotOf, SendFragments, Start, Piece, Payload;
    if RoomForRecords(env) && SnapshotOf(cfg, t, env) != [] {
      CycleFragments(cfg, t, c, env);
      var us, p := Cycle(cfg, t, c, env).uplinks, PerFragment(env.available);
      assert WellFormed(us[k], k, FragmentCount(|SnapshotOf(cfg, t, env)|, p, env.maxUplinks), p);
    }
  }

  /** A heartbeat is not quite "nothing new to report". With room for records it is: every uplink of a cycle is a
      heartbeat if nothing is pending and fresh, and none is otherwise. With room for a header only every uplink is
      one, whatever is pending. */
  lemma HeartbeatExactly(cfg: Config, t: Table, c: Comms, env: Env, k: nat)
    requires |t.entries| > 0 && k < |Cycle(cfg, t, c, env).uplinks| && Cycle(cfg, t, c, env).uplinks[k].Fragment?
    ensures HasHeartbeat(Cycle(cfg, t, c, env).uplinks[k].header) <==>
            !RoomForRecords(env) || SnapshotOf(cfg, t, env) == []
  {
    hide AfterAdverts, SnapshotOf, SendFragments, Start, Piece, Payload;
    if RoomForRecords(env) && SnapshotOf(cfg, t, env) != [] {
      CycleFragments(cfg, t, c, env);
      var us, p := Cycle(cfg, t, c, env).uplinks, PerFragment(env.available);
      assert WellFormed(us[k], k, FragmentCount(|SnapshotOf(cfg, t, env)|, p, env.maxUplinks), p);
    }
  }

  lemma {:induction false} BootSentMeansHeard(cfg: Config, t: Table, c: Comms, envs: seq<Env>, outs: seq<Outcome>,
                                              i: nat)
    requires IsHistory(cfg, t, c, envs, outs) && i <= |outs| && !c.bootSent
    ensures Before(t, c, outs, i).1.bootSent <==> exists j :: 0 <= j < i && Visible(outs[j])
  {
    hide Cycle, Visible;
    if i > 0 {
      BootSentMeansHeard(cfg, t, c, envs, outs, i - 1);
      CycleNumbers(cfg, Before(t, c, outs, i - 1).0, Before(t, c, outs, i - 1).1, envs[i - 1]);
    }
  }

  /** Over any run from boot, the accepted uplinks flagged BOOT are exactly those of the first cycle that had a
      headered uplink accepted. */
  lemma BootMarksFirstVisibleCycle(cfg: Config, t: Table, envs: seq<Env>, outs: seq<Outcome>, i: nat, k: nat)
    requires IsHistory(cfg, t, Comms(0, false, 0), envs, outs) && cfg.reportBoot
    requires i < |outs| && k < |outs[i].uplinks| && outs[i].uplinks[k].Fragment? && outs[i].uplinks[k].accepted
    ensures HasBoot(outs[i].uplinks[k].header) <==> forall j :: 0 <= j < i ==> !Visible(outs[j])
  {
    hide Cycle, Visible;
    var c := Comms(0, false, 0);
    BootSentMeansHeard(cfg, t, c, envs, outs, i);
    CycleNumbers(cfg, Before(t, c, outs, i).0, Before(t, c, outs, i).1, envs[i]);
  }

  /** The sixteen bits that are left of an unbounded count. */
  function Low16(a: nat): uint16 {
    a % 0x1_0000
  }

  lemma NextOfResidue(a: nat)
    ensures Next16(Low16(a)) == Low16(a + 1) != Low16(a)
  {
  }

  lemma ResiduesDiffer(a: nat, b: nat)
    requires 0 < b - a < 0x1_0000
    ensures Low16(a) != Low16(b)
  {
  }

  /** A cycle takes a sequence number when a header fits and there is something to put under it: records, a heartbeat
      that is due, or only the header itself because no record fits. */
  ghost predicate TakesNumber(cfg: Config, t: Table, c: Comms, env: Env)
    requires |t.entries| > 0
  {
    RoomForHeader(env) &&
    (!RoomForRecords(env) || SnapshotOf(cfg, t, env) != [] || HeartbeatDue(cfg, c, env.cycleClock))
  }

  /** The cycle handed a header to the link. */
  predicate Headered(o: Outcome) {
    exists k :: 0 <= k < |o.uplinks| && o.uplinks[k].Fragment?
  }

  /** Taking a number and transmitting under it are the same, but for a link that allows no uplinks. */
  lemma TakesNumberExactly(cfg: Config, t: Table, c: Comms, env: Env)
    requires |t.entries| > 0
    ensures var o := Cycle(cfg, t, c, env);
            && o.comms.sequence == (if TakesNumber(cfg, t, c, env) then Next16(c.sequence) else c.sequence)
            && (Headered(o) <==>
                  TakesNumber(cfg, t, c, env)
                  && (env.maxUplinks > 0 || !RoomForRecords(env) || SnapshotOf(cfg, t, env) == []))
  {
    hide AfterAdverts, SnapshotOf, SendFragments, Next16;
    if RoomForRecords(env) && SnapshotOf(cfg, t, env) != [] {
      SnapshotTakesNumber(cfg, TableSnapped(t, env), c, env, SnapshotOf(cfg, t, env), PerFragment(env.available));
    } else {
      var o := Cycle(cfg, t, c, env);
      assert |o.uplinks| <= 1 && (Headered(o) <==> |o.uplinks| == 1 && o.uplinks[0].Fragment?);
    }
  }

  lemma SnapshotTakesNumber(cfg: Config, t: Table, c: Comms, env: Env, snap: seq<Entry>, p: uint8)
    requires |t.entries| > 0 && snap != [] && p > 0
    ensures var o := SendSnapshot(cfg, t, c, env, snap, p);
            o.comms.sequence == Next16(c.sequence) && (Headered(o) <==> env.maxUplinks > 0)
  {
    hide TableAfter, TableAt, UplinkAt, Next16;
    var of := FragmentCount(|snap|, p, env.maxUplinks);
    var c1 := c.(sequence := Next16(c.sequence));
    var us := SendFragments(cfg, t, c1, env, snap, p, of).uplinks;
    SendFragmentsAre(cfg, t, c1, env, snap, p, of);
    FragmentCountFits(|snap|, p, env.maxUplinks, 0);
    if of > 0 {
      assert IsFragment(us[0], cfg, c1, env, Piece(snap, p, 0), 0, of, 0 < LeadingAccepts(env.accepts, 0, of));
    }
  }

  /** How many of the first `i` cycles of a history took a sequence number. */
  ghost function Numbered(cfg: Config, t: Table, c: Comms, envs: seq<Env>, outs: seq<Outcome>, i: nat): nat
    requires IsHistory(cfg, t, c, envs, outs) && i <= |outs|
  {
    if i == 0 then 0
    else
      var (now, statics) := Before(t, c, outs, i - 1);
      Numbered(cfg, t, c, envs, outs, i - 1) + if TakesNumber(cfg, now, statics, envs[i - 1]) then 1 else 0
  }

  /** How many of the first `i` cycles transmitted a header. */
  function Transmitting(outs: seq<Outcome>, i: nat): nat
    requires i <= |outs|
  {
    if i == 0 then 0 else Transmitting(outs, i - 1) + if Headered(outs[i - 1]) then 1 else 0
  }

  /** One more cycle counts if it takes a number, and that is when it transmits under it, given a link that allows
      uplinks at all. */
  lemma NumberedStep(cfg: Config, t: Table, c: Comms, envs: seq<Env>, outs: seq<Outcome>, i: nat)
    requires IsHistory(cfg, t, c, envs, outs) && i < |outs|
    ensures var b := Before(t, c, outs, i).1.sequence; var a := Before(t, c, outs, i + 1).1.sequence;
            var n := Numbered(cfg, t, c, envs, outs, i);
            || (a == Next16(b) && Numbered(cfg, t, c, envs, outs, i + 1) == n + 1)
            || (a == b && Numbered(cfg, t, c, envs, outs, i + 1) == n && !Headered(outs[i]))
    ensures envs[i].maxUplinks > 0 ==>
              (Headered(outs[i]) <==> Numbered(cfg, t, c, envs, outs, i + 1) > Numbered(cfg, t, c, envs, outs, i))
  {
    HistoryStep(cfg, t, c, envs, outs, i);
    hide IsHistory, Cycle, Headered, Next16, TakesNumber;
    var (now, statics) := Before(t, c, outs, i);
    TakesNumberExactly(cfg, now, statics, envs[i]);
    NumberedUnfolds(cfg, t, c, envs, outs, i);
    hide Before, Numbered;
  }

  lemma NumberedUnfolds(cfg: Config, t: Table, c: Comms, envs: seq<Env>, outs: seq<Outcome>, i: nat)
    requires IsHistory(cfg, t, c, envs, outs) && i < |outs|
    ensures var (now, statics) := Before(t, c, outs, i);
            && |now.entries| > 0
            && Numbered(cfg, t, c, envs, outs, i + 1)
               == Numbered(cfg, t, c, envs, outs, i) + if TakesNumber(cfg, now, statics, envs[i]) then 1 else 0
  {
    hide TakesNumber, Cycle;
  }

  /** The sequence number is what is left in sixteen bits of the number of cycles that took one. */
  lemma {:induction false} SequenceCounts(cfg: Config, t: Table, c: Comms, envs: seq<Env>, outs: seq<Outcome>, i: nat)
    requires IsHistory(cfg, t, c, envs, outs) && i <= |outs|
    ensures Before(t, c, outs, i).1.sequence == Low16(c.sequence + Numbered(cfg, t, c, envs, outs, i))
  {
    hide IsHistory, Next16, Low16, Before, Numbered, Headered;
    if i == 0 {
      NothingNumbered(cfg, t, c, envs, outs);
      assert Low16(c.sequence) == c.sequence by { SmallResidue(c.sequence); }
    } else {
      NumberedStep(cfg, t, c, envs, outs, i - 1);
      SequenceCounts(cfg, t, c, envs, outs, i - 1);
      NextOfResidue(c.sequence + Numbered(cfg, t, c, envs, outs, i - 1));
    }
  }

  lemma NothingNumbered(cfg: Config, t: Table, c: Comms, envs: seq<Env>, outs: seq<Outcome>)
    requires IsHistory(cfg, t, c, envs, outs)
    ensures Numbered(cfg, t, c, envs, outs, 0) == 0 && Before(t, c, outs, 0) == (t, c)
  {
  }

  lemma SmallResidue(a: uint16)
    ensures Low16(a) == a
  {
  }

  lemma {:induction false} NumberedAreTransmitting(cfg: Config, t: Table, c: Comms, envs: seq<Env>,
                                                   outs: seq<Outcome>, i: nat)
    requires IsHistory(cfg, t, c, envs, outs) && i <= |outs|
    requires forall j :: 0 <= j < |envs| ==> envs[j].maxUplinks > 0
    ensures Numbered(cfg, t, c, envs, outs, i) == Transmitting(outs, i)
  {
    hide IsHistory, Next16, Before, Numbered, Headered;
    if i == 0 {
      NothingNumbered(cfg, t, c, envs, outs);
    } else {
      HistoryStep(cfg, t, c, envs, outs, i - 1);
      NumberedAreTransmitting(cfg, t, c, envs, outs, i - 1);
      NumberedStep(cfg, t, c, envs, outs, i - 1);
    }
  }

  /** On links that allow uplinks, as all do, those are the cycles that transmitted a header. */
  lemma SequenceCountsTransmissions(cfg: Config, t: Table, c: Comms, envs: seq<Env>, outs: seq<Outcome>, i: nat)
    requires IsHistory(cfg, t, c, envs, outs) && i <= |outs|
    requires forall j :: 0 <= j < |envs| ==> envs[j].maxUplinks > 0
    ensures Before(t, c, outs, i).1.sequence == Low16(c.sequence + Transmitting(outs, i))
  {
    hide IsHistory, Before, Numbered, Transmitting, Low16;
    SequenceCounts(cfg, t, c, envs, outs, i);
    NumberedAreTransmitting(cfg, t, c, envs, outs, i);
  }

  lemma {:induction false} NumberedGrows(cfg: Config, t: Table, c: Comms, envs: seq<Env>, outs: seq<Outcome>,
                                         i: nat, j: nat)
    requires IsHistory(cfg, t, c, envs, outs) && i <= j <= |outs|
    ensures Numbered(cfg, t, c, envs, outs, i) <= Numbered(cfg, t, c, envs, outs, j)
  {
    hide IsHistory, Numbered, TakesNumber, Before;
    if i < j {
      NumberedGrows(cfg, t, c, envs, outs, i, j - 1);
      NumberedUnfolds(cfg, t, c, envs, outs, j - 1);
    }
  }

  lemma FragmentNumber(cfg: Config, t: Table, c: Comms, envs: seq<Env>, outs: seq<Outcome>, i: nat, k: nat)
    requires IsHistory(cfg, t, c, envs, outs) && i < |outs| && k < |outs[i].uplinks| && outs[i].uplinks[k].Fragment?
    ensures outs[i].uplinks[k].header.sequence == Low16(c.sequence + Numbered(cfg, t, c, envs, outs, i + 1))
    ensures outs[i].uplinks[k].header.fragmentIndex == k
    ensures Numbered(cfg, t, c, envs, outs, i + 1) == Numbered(cfg, t, c, envs, outs, i) + 1
  {
    hide IsHistory, Cycle, Visible, Low16, Before;
    HistoryStep(cfg, t, c, envs, outs, i);
    CycleNumbers(cfg, Before(t, c, outs, i).0, Before(t, c, outs, i).1, envs[i]);
    SequenceCounts(cfg, t, c, envs, outs, i + 1);
    NumberedStep(cfg, t, c, envs, outs, i);
    assert Headered(outs[i]);
    hide Numbered;
  }

  /** Within fewer than 2^16 numbered cycles, sequence number and fragment index name one transmission. */
  lemma NumberNamesFragment(cfg: Config, t: Table, c: Comms, envs: seq<Env>, outs: seq<Outcome>, i: nat, k: nat,
                            j: nat, l: nat)
    requires IsHistory(cfg, t, c, envs, outs)
    requires i <= j < |outs| && k < |outs[i].uplinks| && l < |outs[j].uplinks|
    requires outs[i].uplinks[k].Fragment? && outs[j].uplinks[l].Fragment?
    requires Numbered(cfg, t, c, envs, outs, j + 1) - Numbered(cfg, t, c, envs, outs, i + 1) < 0x1_0000
    requires outs[i].uplinks[k].header.sequence == outs[j].uplinks[l].header.sequence
    requires outs[i].uplinks[k].header.fragmentIndex == outs[j].uplinks[l].header.fragmentIndex
    ensures i == j && k == l
  {
    hide IsHistory, Low16, Numbered;
    FragmentNumber(cfg, t, c, envs, outs, i, k);
    FragmentNumber(cfg, t, c, envs, outs, j, l);
    if i < j {
      NumberedGrows(cfg, t, c, envs, outs, i + 1, j);
      ResiduesDiffer(c.sequence + Numbered(cfg, t, c, envs, outs, i + 1), c.sequence
                     + Numbered(cfg, t, c, envs, outs, j + 1));
    }
  }
}
