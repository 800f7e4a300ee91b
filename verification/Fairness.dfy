/** What is deferred stays pending, but the next snapshot is taken in slot order, not in order of waiting. */
module Fairness {
  import opened Words
  import opened Records
  import opened TableModel
  import opened Dispatch
  import opened Histories
  import opened OneRecord

  // ---- The exact order ----

  /** How many slots before the `i`-th have something to report. */
  function ReportableBefore(es: seq<Entry>, i: nat, now: uint32, stale: uint32): nat
    requires i <= |es|
  {
    if i == 0 then 0 else ReportableBefore(es, i - 1, now, stale) + if Reportable(es[i - 1], now, stale) then 1 else 0
  }

  lemma {:induction false} CountIsPosition(es: seq<Entry>, i: nat, now: uint32, stale: uint32)
    requires i <= |es|
    ensures |FreshIndices(es[..i], now, stale)| == ReportableBefore(es, i, now, stale)
    ensures FreshIndices(es[..i], now, stale) <= FreshIndices(es, now, stale)
    decreases |es| + i
  {
    if i > 0 {
      CountIsPosition(es, i - 1, now, stale);
      assert es[..i][..i - 1] == es[..i - 1];
    }
    if i < |es| {
      var front := es[..|es| - 1];
      CountIsPosition(front, i, now, stale);
      assert front[..i] == es[..i];
    } else {
      assert es[..i] == es;
    }
  }

  /** A reportable slot is the n-th of a snapshot for the n reportable slots before it. */
  lemma PositionInSnapshot(es: seq<Entry>, i: nat, now: uint32, stale: uint32)
    requires i < |es| && Reportable(es[i], now, stale)
    ensures var idx, n := FreshIndices(es, now, stale), ReportableBefore(es, i, now, stale);
            n < |idx| && idx[n] == i
  {
    CountIsPosition(es, i, now, stale);
    CountIsPosition(es, i + 1, now, stale);
    assert es[..i + 1][..i] == es[..i];
    var before, upTo := FreshIndices(es[..i], now, stale), FreshIndices(es[..i + 1], now, stale);
    assert upTo == before + [i];
    assert upTo[|before|] == i;
  }

  /** How many records a cycle has room for. */
  function Room(env: Env): nat {
    if RoomForRecords(env) then PerFragment(env.available) * env.maxUplinks else 0
  }

  /** The rule the code follows. In a cycle in which every fragment is accepted, a device that is due is carried if and
      only if fewer due devices than the cycle has room for are in earlier slots, however long it has waited. */
  lemma CarriedExactly(cfg: Config, t: Table, c: Comms, env: Env, i: nat)
    requires |t.entries| > 0 && Unique(TableSnapped(t, env).entries) && RoomForRecords(env)
    requires i < |t.entries| && Reportable(TableSnapped(t, env).entries[i], env.snapshotClock, cfg.staleAfter)
    requires AllAccepted(Cycle(cfg, t, c, env).uplinks)
    ensures var es := TableSnapped(t, env).entries;
            es[i] in Accepted(Cycle(cfg, t, c, env).uplinks) <==>
            ReportableBefore(es, i, env.snapshotClock, cfg.staleAfter) < Room(env)
  {
    hide Cycle, TableSnapped, Reportable, Room, AllAccepted;
    var es := TableSnapped(t, env).entries;
    InFrontExactly(es, i, env.snapshotClock, cfg.staleAfter, Room(env));
    FullCycleCarries(cfg, t, c, env);
  }

  lemma FullCycleCarries(cfg: Config, t: Table, c: Comms, env: Env)
    requires |t.entries| > 0 && RoomForRecords(env) && AllAccepted(Cycle(cfg, t, c, env).uplinks)
    requires SnapshotOf(cfg, t, env) != []
    ensures var snap := SnapshotOf(cfg, t, env);
            Accepted(Cycle(cfg, t, c, env).uplinks) == snap[..Min(|snap|, Room(env))]
  {
    hide Cycle, SnapshotOf, AllAccepted;
    CycleFragments(cfg, t, c, env);
  }

  lemma InFrontExactly(es: seq<Entry>, i: nat, now: uint32, stale: uint32, room: nat)
    requires Unique(es) && i < |es| && Reportable(es[i], now, stale)
    ensures var snap := Snapshot(es, now, stale, |es|);
            snap != [] && (es[i] in snap[..Min(|snap|, room)] <==> ReportableBefore(es, i, now, stale) < room)
  {
    hide Snapshot;
    var idx, n := FreshIndices(es, now, stale), ReportableBefore(es, i, now, stale);
    var snap := Snapshot(es, now, stale, |es|);
    PositionInSnapshot(es, i, now, stale);
    SnapshotExact(es, now, stale, |es|);
    FreshIndicesExact(es, now, stale);
    assert forall k :: 0 <= k < |idx| ==> idx[k] in idx;
    InPrefixExactly(es, idx, snap, n, Min(|snap|, room));
  }

  lemma InPrefixExactly(es: seq<Entry>, idx: seq<nat>, snap: seq<Entry>, n: nat, m: nat)
    requires Unique(es) && Increasing(idx) && |snap| == |idx| && n < |idx| && m <= |idx|
    requires forall k :: 0 <= k < |idx| ==> idx[k] < |es| && es[idx[k]].inUse && snap[k] == es[idx[k]]
    ensures es[idx[n]] in snap[..m] <==> n < m
  {
    if n < m {
      assert snap[..m][n] == es[idx[n]];
    } else {
      forall k | 0 <= k < m ensures snap[..m][k] != es[idx[n]] {
        assert idx[k] < idx[n];
      }
    }
  }

  /** In particular a deferred device is at the front of the next snapshot if and only if nothing in an earlier slot
      has something to report. */
  lemma DeferredLeadsExactly(es: seq<Entry>, now: uint32, stale: uint32, i: nat)
    requires i < |es| && Reportable(es[i], now, stale)
    ensures FreshIndices(es, now, stale) != []
    ensures FreshIndices(es, now, stale)[0] == i <==> forall j :: 0 <= j < i ==> !Reportable(es[j], now, stale)
  {
    var r := FreshIndices(es, now, stale);
    FreshIndicesExact(es, now, stale);
    assert i in r;
    var k :| 0 <= k < |r| && r[k] == i;
    assert r[0] in r && r[0] <= i;
  }

  // ---- Starvation ----

  /** A cycle that goes well, has room for one record, and hears only what is recorded before its snapshot. */
  ghost predicate Narrow(env: Env) {
    && RoomForRecords(env) && PerFragment(env.available) == 1 && env.maxUplinks == 1
    && (forall k :: env.beforeFragment(k) == [])
    && (forall k :: env.beforeAck(k) == [])
    && (forall k :: env.accepts(k))
  }

  /** One device keeps advertising, once before every cycle. */
  ghost predicate Busy(env: Env, a: Address) {
    && Narrow(env)
    && |env.beforeSnapshot| == 1
    && env.beforeSnapshot[0].address == a
    && env.beforeSnapshot[0].time == env.snapshotClock
  }

  /** The first slot is the device's, and its last reading is acknowledged. */
  predicate FirstServed(es: seq<Entry>, a: Address) {
    |es| > 0 && Holds(es[0], a) && es[0].updateSeq == es[0].reportedSeq
  }

  /** All the cycle delivers is a record of this device. */
  predicate Only(o: Outcome, a: Address) {
    forall e :: e in Accepted(o.uplinks) ==> e.address == a
  }

  /** A busy cycle carries that device and nothing else, and leaves all other slots as they were. */
  lemma BusyCycle(cfg: Config, t: Table, c: Comms, env: Env, a: Address)
    requires FirstServed(t.entries, a) && Busy(env, a)
    ensures var o := Cycle(cfg, t, c, env);
            FirstServed(o.table.entries, a) && o.table.entries[1..] == t.entries[1..] && Only(o, a)
  {
    hide Minus32, Cycle;
    var x := AfterAdvert(t, env.beforeSnapshot[0]);
    assert env.beforeSnapshot[1..] == [];
    assert AfterAdverts(x, []) == x && TableSnapped(t, env) == x;
    assert x.entries[0] == Refreshed(t.entries[0], env.beforeSnapshot[0]) && x.entries[1..] == t.entries[1..];
    NoAge(env.snapshotClock);
    SingleCycle(cfg, t, c, env);
    OneIsAll(Cycle(cfg, t, c, env), a);
  }

  lemma OneIsAll(o: Outcome, a: Address)
    requires |o.uplinks| == 1 && o.uplinks[0].Fragment? && |o.uplinks[0].carried| == 1
        && o.uplinks[0].carried[0].address == a
    ensures Only(o, a)
  {
    assert o.uplinks[..0] == [];
    assert Accepted(o.uplinks) == Accepted([]) + Taken(o.uplinks[0]);
  }

  /** With one busy device in the first slot from cycle `m` on, no other device is heard of again, however many fully
      successful cycles there are: the order is not fair. */
  lemma {:induction false} BusyDeviceStarvesOthers(cfg: Config, t: Table, c: Comms, envs: seq<Env>, outs: seq<Outcome>,
                                                   a: Address, m: nat, n: nat)
    requires IsHistory(cfg, t, c, envs, outs) && m <= n <= |outs|
    requires FirstServed(Before(t, c, outs, m).0.entries, a)
    requires forall i :: m <= i < |envs| ==> Busy(envs[i], a)
    ensures FirstServed(Before(t, c, outs, n).0.entries, a)
    ensures Before(t, c, outs, n).0.entries[1..] == Before(t, c, outs, m).0.entries[1..]
    ensures forall i :: m <= i < n ==> Only(outs[i], a)
    decreases n
  {
    hide Cycle, Busy, Only, FirstServed;
    if m < n {
      BusyDeviceStarvesOthers(cfg, t, c, envs, outs, a, m, n - 1);
      BusyCycle(cfg, Before(t, c, outs, n - 1).0, Before(t, c, outs, n - 1).1, envs[n - 1], a);
    }
  }

  /** Two devices are heard before the first cycle. */
  ghost predicate BothHeard(env: Env, a: Advert, b: Advert) {
    && Narrow(env)
    && env.beforeSnapshot == [a, b] && a.address != b.address
    && a.time == b.time == env.snapshotClock
  }

  lemma FirstCycleServesFirst(cfg: Config, slots: nat, c: Comms, env: Env, a: Advert, b: Advert)
    requires slots >= 2 && BothHeard(env, a, b)
    ensures var t := Table(seq(slots, i => BLANK), 0); var o := Cycle(cfg, t, c, env);
            && FirstServed(o.table.entries, a.address) && |o.table.entries| == slots
            && Holds(o.table.entries[1], b.address) && Pending(o.table.entries[1]) && Shows(o.table.entries[1], b)
            && Only(o, a.address)
  {
    hide Minus32, Cycle;
    var t := Table(seq(slots, i => BLANK), 0);
    var x, y := AfterAdvert(t, a), AfterAdvert(AfterAdvert(t, a), b);
    assert t.entries[0] == BLANK && t.entries[1] == BLANK;
    assert FreeIndex(t.entries) == 0 && !Known(t.entries, a.address);
    assert x.entries[0].inUse && x.entries[1..] == t.entries[1..] && x.entries[1] == BLANK;
    assert FreeIndex(x.entries) == 1;
    assert !Known(x.entries, b.address);
    assert y.entries[0] == x.entries[0];
    assert [a, b][1..] == [b] && [b][1..] == [];
    assert AfterAdverts(y, []) == y && AfterAdverts(x, [b]) == y && TableSnapped(t, env) == y;
    NoAge(env.snapshotClock);
    SingleCycle(cfg, t, c, env);
    OneIsAll(Cycle(cfg, t, c, env), a.address);
  }

  /** From boot: two devices are heard, the first is served and keeps advertising. After any number of fully successful
      cycles the second is still pending with the reading it was first heard with, and no uplink ever carried it. */
  lemma SecondDeviceWaitsForEver(cfg: Config, slots: nat, c: Comms, envs: seq<Env>, outs: seq<Outcome>, a: Advert,
                                 b: Advert)
    requires slots >= 2 && IsHistory(cfg, Table(seq(slots, i => BLANK), 0), c, envs, outs)
    requires |envs| > 0 && BothHeard(envs[0], a, b)
    requires forall i :: 1 <= i < |envs| ==> Busy(envs[i], a.address)
    ensures var e := Before(Table(seq(slots, i => BLANK), 0), c, outs, |outs|).0.entries;
            |e| == slots && Holds(e[1], b.address) && Pending(e[1]) && Shows(e[1], b)
    ensures forall i, e :: 0 <= i < |outs| && e in Accepted(outs[i].uplinks) ==> e.address == a.address
  {
    hide Cycle, Busy, BothHeard;
    var t := Table(seq(slots, i => BLANK), 0);
    FirstCycleServesFirst(cfg, slots, c, envs[0], a, b);
    assert Before(t, c, outs, 1).0 == outs[0].table && outs[0] == Cycle(cfg, t, c, envs[0]);
    BusyDeviceStarvesOthers(cfg, t, c, envs, outs, a.address, 1, |outs|);
    var first, last := outs[0].table.entries, Before(t, c, outs, |outs|).0.entries;
    assert last[1] == last[1..][0] == first[1..][0] == first[1];
  }
}
