/** With no new advertisements and a link that accepts what it is given, every pending device is delivered exactly
    once, in slot order, in a number of cycles that can be computed beforehand. */
module Drain {
  import opened Words
  import opened Records
  import opened TableModel
  import opened Dispatch
  import opened Histories
  import opened Seqs

  /** Nothing is heard during the cycle and the link accepts everything. */
  ghost predicate Quiet(env: Env) {
    && env.beforeSnapshot == []
    && (forall k :: env.beforeFragment(k) == [])
    && (forall k :: env.beforeAck(k) == [])
    && (forall k :: env.accepts(k))
  }

  // ---- Acknowledging a prefix of the snapshot ----

  /** The slots once the first `k` of the indices have been acknowledged. */
  function Done(es: seq<Entry>, idx: seq<nat>, k: nat): (r: seq<Entry>)
    requires k <= |idx|
    ensures |r| == |es|
  {
    seq(|es|, i requires 0 <= i < |es| => if i in idx[..k] then es[i].(reportedSeq := es[i].updateSeq) else es[i])
  }

  lemma DoneStep(es: seq<Entry>, idx: seq<nat>, k: nat)
    requires Unique(es) && Increasing(idx) && k < |idx| && idx[k] < |es| && es[idx[k]].inUse
    ensures Marked(Done(es, idx, k), es[idx[k]].address, es[idx[k]].updateSeq) == Done(es, idx, k + 1)
  {
    var before, x := Done(es, idx, k), idx[k];
    assert x !in idx[..k];
    DoneUnique(es, idx, k);
    FindIndexIs(before, es[x].address, x);
    var after := Done(es, idx, k + 1);
    forall i | 0 <= i < |es| ensures after[i] == if i == x then es[x].(reportedSeq := es[x].updateSeq) else before[i] {
      InOneMore(idx, k, i);
    }
    hide Done;
    assert after == before[x := es[x].(reportedSeq := es[x].updateSeq)];
  }

  lemma InOneMore(idx: seq<nat>, k: nat, i: nat)
    requires k < |idx|
    ensures i in idx[..k + 1] <==> i in idx[..k] || i == idx[k]
  {
    assert idx[..k + 1] == idx[..k] + [idx[k]];
  }

  /** In a quiet cycle an accepted fragment leaves exactly its own devices acknowledged. */
  lemma {:induction false} QuietAcks(t: Table, es: seq<Entry>, idx: seq<nat>, env: Env, first: nat, n: nat, k: nat)
    requires Quiet(env) && |es| > 0 && Unique(es) && Increasing(idx) && k <= n && first + n <= |idx|
    requires forall j :: 0 <= j < |idx| ==> idx[j] < |es| && es[idx[j]].inUse
    requires t.entries == Done(es, idx, first)
    ensures AckedTable(t, At(es, idx)[first..first + n], env, first, k) == t.(entries := Done(es, idx, first + k))
    decreases k
  {
    hide Marked, Done;
    if k > 0 {
      QuietAcks(t, es, idx, env, first, n, k - 1);
      DoneStep(es, idx, first + k - 1);
      var all := At(es, idx);
      var piece := all[first..first + n];
      assert all[first + k - 1] == es[idx[first + k - 1]];
      SliceAt(all, first, first + n, k - 1);
      assert env.beforeAck(first + k - 1) == [];
    }
  }

  lemma {:induction false} QuietFragments(t: Table, es: seq<Entry>, idx: seq<nat>, env: Env, perFragment: nat, f: nat)
    requires Quiet(env) && |es| > 0 && Unique(es) && Increasing(idx)
    requires forall j :: 0 <= j < |idx| ==> idx[j] < |es| && es[idx[j]].inUse
    requires t.entries == es
    ensures TableAfter(t, env, At(es, idx), perFragment, f)
        == t.(entries := Done(es, idx, Start(|idx|, perFragment, f)))
    decreases f
  {
    hide Marked, Done, AckedTable;
    if f == 0 {
      NothingDone(es, idx);
    } else {
      QuietFragments(t, es, idx, env, perFragment, f - 1);
      var x := t.(entries := Done(es, idx, Start(|idx|, perFragment, f - 1)));
      assert env.beforeFragment(f - 1) == [] && AfterAdverts(x, []) == x;
      var first, next := Start(|idx|, perFragment, f - 1), Start(|idx|, perFragment, f);
      PieceIs(At(es, idx), perFragment, f - 1);
      QuietAcks(x, es, idx, env, first, next - first, next - first);
    }
  }

  lemma NothingDone(es: seq<Entry>, idx: seq<nat>)
    ensures Done(es, idx, 0) == es
  {
  }

  // ---- What the next snapshot takes ----

  /** Nothing pending is too old, or seems to be, when the snapshot reads its clock. */
  ghost predicate NothingStale(es: seq<Entry>, now: uint32, stale: uint32) {
    forall i :: 0 <= i < |es| && Pending(es[i]) ==> Minus32(now, es[i].lastSeen) <= stale
  }

  /** The slots of the pending devices, in slot order. */
  ghost predicate PendingAre(es: seq<Entry>, idx: seq<nat>) {
    && Increasing(idx)
    && (forall j :: 0 <= j < |idx| ==> idx[j] < |es| && Pending(es[idx[j]]))
    && (forall i: nat :: i < |es| && Pending(es[i]) ==> i in idx)
  }

  lemma HasMember(b: seq<nat>)
    requires b != []
    ensures exists x: nat :: x in b
  {
    assert b[0] in b;
  }

  lemma {:induction false} SameMembersSameOrder(a: seq<nat>, b: seq<nat>)
    requires Increasing(a) && Increasing(b) && forall x: nat :: x in a <==> x in b
    ensures a == b
    decreases |a|
  {
    if a == [] {
      if b != [] {
        HasMember(b);
      }
    } else {
      assert b != [] by {
        assert a[0] in b;
      }
      var m, n := |a| - 1, |b| - 1;
      LastsAgree(a, b);
      WithoutLast(a);
      WithoutLast(b);
      SameMembersSameOrder(a[..m], b[..n]);
      assert a == a[..m] + [a[m]] && b == b[..n] + [b[n]];
    }
  }

  lemma WithoutLast(a: seq<nat>)
    requires a != [] && Increasing(a)
    ensures var m := |a| - 1; Increasing(a[..m]) && forall x: nat :: x in a[..m] <==> x in a && x != a[m]
  {
    var m := |a| - 1;
    assert a == a[..m] + [a[m]];
  }

  lemma LastsAgree(a: seq<nat>, b: seq<nat>)
    requires a != [] && b != [] && Increasing(a) && Increasing(b) && forall x: nat :: x in a <==> x in b
    ensures a[|a| - 1] == b[|b| - 1]
  {
    assert a[|a| - 1] in b && b[|b| - 1] in a;
  }

  /** Once the first `k` devices of a snapshot are acknowledged and nothing else has happened, the next snapshot
      takes the others, as they were. */
  lemma NextSnapshot(es: seq<Entry>, idx: seq<nat>, k: nat, now: uint32, stale: uint32)
    requires k <= |idx|
    requires PendingAre(es, idx) && NothingStale(es, now, stale)
    ensures FreshIndices(Done(es, idx, k), now, stale) == idx[k..]
    ensures At(Done(es, idx, k), idx[k..]) == At(es, idx)[k..]
  {
    var r := Done(es, idx, k);
    var got := FreshIndices(r, now, stale);
    FreshIndicesExact(r, now, stale);
    hide FreshIndices;
    forall x: nat ensures x in got <==> x in idx[k..] {
      StillReportable(es, idx, k, now, stale, x);
    }
    hide NothingStale, Reportable;
    assert Increasing(idx[k..]);
    SameMembersSameOrder(got, idx[k..]);
    forall j | 0 <= j < |idx| - k ensures r[idx[k..][j]] == At(es, idx)[k..][j] {
      InTailOrHead(idx, k, idx[k + j]);
    }
  }

  lemma StillReportable(es: seq<Entry>, idx: seq<nat>, k: nat, now: uint32, stale: uint32, x: nat)
    requires k <= |idx|
    requires PendingAre(es, idx) && NothingStale(es, now, stale)
    ensures x in idx[k..] <==> x < |es| && Reportable(Done(es, idx, k)[x], now, stale)
  {
    InTailOrHead(idx, k, x);
    hide Minus32;
  }

  lemma InTailOrHead(idx: seq<nat>, k: nat, x: nat)
    requires k <= |idx| && Increasing(idx)
    ensures x in idx <==> x in idx[..k] || x in idx[k..]
    ensures !(x in idx[..k] && x in idx[k..])
  {
    assert idx == idx[..k] + idx[k..];
  }

  lemma DoneUnique(es: seq<Entry>, idx: seq<nat>, k: nat)
    requires Unique(es) && k <= |idx|
    ensures Unique(Done(es, idx, k))
  {
  }

  lemma DoneAgain(es: seq<Entry>, idx: seq<nat>, a: nat, b: nat)
    requires a + b <= |idx|
    ensures Done(Done(es, idx, a), idx[a..], b) == Done(es, idx, a + b)
  {
    assert idx[..a + b] == idx[..a] + idx[a..][..b];
  }

  // ---- Cycles ----

  lemma QuietCycle(cfg: Config, t: Table, c: Comms, env: Env, idx: seq<nat>, perCycle: nat)
    requires |t.entries| > 0 && Unique(t.entries) && Quiet(env) && RoomForRecords(env)
    requires idx == FreshIndices(t.entries, env.snapshotClock, cfg.staleAfter)
    requires perCycle == PerFragment(env.available) * env.maxUplinks
    ensures var o := Cycle(cfg, t, c, env); var sent := Min(|idx|, perCycle);
            && o.table.entries == Done(t.entries, idx, sent)
            && Accepted(o.uplinks) == Fresh(t.entries, env.snapshotClock, cfg.staleAfter)[..sent]
  {
    hide Done, SendFragments, TableAfter, Start, AfterAdverts, Piece;
    var es, snap := t.entries, At(t.entries, idx);
    FreshIndicesExact(es, env.snapshotClock, cfg.staleAfter);
    assert forall j :: 0 <= j < |idx| ==> idx[j] in idx;
    QuietTable(t, env);
    SnapshotExact(es, env.snapshotClock, cfg.staleAfter, |es|);
    assert SnapshotOf(cfg, t, env) == snap;
    var o := Cycle(cfg, t, c, env);
    if snap == [] {
      NothingDone(es, idx);
      QuietHeartbeat(cfg, t, c, env);
    } else {
      CycleFragments(cfg, t, c, env);
      var p := PerFragment(env.available);
      var of := FragmentCount(|snap|, p, env.maxUplinks);
      var c1 := c.(sequence := Next16(c.sequence));
      QuietSend(cfg, t, c1, env, snap, p, of);
      assert o.uplinks == SendFragments(cfg, t, c1, env, snap, p, of).uplinks;
      QuietFragments(t, es, idx, env, p, of);
      FragmentCountFits(|snap|, p, env.maxUplinks, 0);
    }
  }

  lemma QuietTable(t: Table, env: Env)
    requires |t.entries| > 0 && Quiet(env)
    ensures TableSnapped(t, env) == t && AfterAdverts(t, env.beforeFragment(0)) == t
  {
    assert env.beforeFragment(0) == [];
  }

  lemma QuietHeartbeat(cfg: Config, t: Table, c: Comms, env: Env)
    requires |t.entries| > 0 && Quiet(env)
    ensures var o := HeartbeatIfDue(cfg, t, c, env); o.table == t && Accepted(o.uplinks) == []
  {
    hide AfterAdverts;
    QuietTable(t, env);
    var us := HeartbeatIfDue(cfg, t, c, env).uplinks;
    assert us != [] ==> us[..0] == [] && Taken(us[0]) == [];
    assert Accepted([]) == [];
  }

  lemma QuietSend(cfg: Config, t: Table, c: Comms, env: Env, snap: seq<Entry>, p: uint8, of: uint8)
    requires |t.entries| > 0 && Quiet(env)
    ensures var o := SendFragments(cfg, t, c, env, snap, p, of);
            && o.table == TableAfter(t, env, snap, p, of)
            && o.sent == Start(|snap|, p, of)
            && AllAccepted(o.uplinks)
  {
    hide TableAfter, Start, Piece;
    assert LeadingAccepts(env.accepts, 0, of) == of;
    SendFragmentsAre(cfg, t, c, env, snap, p, of);
    var us := SendFragments(cfg, t, c, env, snap, p, of).uplinks;
    forall k | 0 <= k < |us| ensures us[k].accepted {
      assert IsFragment(us[k], cfg, c, env, Piece(snap, p, k), k, of, true);
    }
  }

  /** Everything the first `n` cycles of a run delivered, in order. */
  function AcceptedOver(outs: seq<Outcome>, n: nat): seq<Entry>
    requires n <= |outs|
  {
    if n == 0 then [] else AcceptedOver(outs, n - 1) + Accepted(outs[n - 1].uplinks)
  }

  /** A run in which nothing is heard, nothing goes stale, the link accepts everything and its limits, which
      leave room for `perCycle` records a cycle, stay as they are. */
  ghost predicate QuietRun(cfg: Config, es: seq<Entry>, envs: seq<Env>, perCycle: nat) {
    forall i :: 0 <= i < |envs| ==>
      && Quiet(envs[i])
      && RoomForRecords(envs[i])
      && PerFragment(envs[i].available) * envs[i].maxUplinks == perCycle
      && NothingStale(es, envs[i].snapshotClock, cfg.staleAfter)
  }

  lemma {:induction false} DrainSoFar(cfg: Config, t: Table, c: Comms, envs: seq<Env>, outs: seq<Outcome>,
                                      idx: seq<nat>, perCycle: nat, n: nat)
    requires IsHistory(cfg, t, c, envs, outs) && Unique(t.entries) && n <= |outs|
    requires PendingAre(t.entries, idx) && QuietRun(cfg, t.entries, envs, perCycle)
    ensures var done := Start(|idx|, perCycle, n);
            && Before(t, c, outs, n).0.entries == Done(t.entries, idx, done)
            && AcceptedOver(outs, n) == At(t.entries, idx)[..done]
  {
    hide Done, Cycle, Quiet, RoomForRecords, Accepted, IsHistory, NothingStale;
    if n == 0 {
      NothingDone(t.entries, idx);
    } else {
      var i := n - 1;
      HistoryStep(cfg, t, c, envs, outs, i);
      DrainSoFar(cfg, t, c, envs, outs, idx, perCycle, i);
      hide Before;
      var a := Start(|idx|, perCycle, i);
      var m := Min(|idx| - a, perCycle);
      DrainStep(cfg, t, Before(t, c, outs, i).0, Before(t, c, outs, i).1, envs[i], idx, perCycle, a);
      var all := At(t.entries, idx);
      assert Accepted(outs[i].uplinks) == all[a..a + m] && Start(|idx|, perCycle, n) == a + m;
      JoinSlices(all, 0, a, a + m);
    }
  }

  lemma DrainStep(cfg: Config, t: Table, now: Table, c: Comms, env: Env, idx: seq<nat>, perCycle: nat, a: nat)
    requires |t.entries| > 0 && Unique(t.entries) && PendingAre(t.entries, idx) && a <= |idx|
    requires now.entries == Done(t.entries, idx, a)
    requires Quiet(env) && RoomForRecords(env) && PerFragment(env.available) * env.maxUplinks == perCycle
    requires NothingStale(t.entries, env.snapshotClock, cfg.staleAfter)
    ensures var o := Cycle(cfg, now, c, env); var m := Min(|idx| - a, perCycle);
            && o.table.entries == Done(t.entries, idx, a + m)
            && Accepted(o.uplinks) == At(t.entries, idx)[a..a + m]
  {
    hide Cycle, Quiet, RoomForRecords, Accepted, Start, Done, FreshIndices;
    DoneUnique(t.entries, idx, a);
    NextSnapshot(t.entries, idx, a, env.snapshotClock, cfg.staleAfter);
    QuietCycle(cfg, now, c, env, idx[a..], perCycle);
    var m := Min(|idx| - a, perCycle);
    DoneAgain(t.entries, idx, a, m);
    var all := At(t.entries, idx);
    assert all[a..][..m] == all[a..a + m];
  }

  /** The pending devices, in slot order: what a snapshot would take if nothing were ever stale. */
  function PendingOf(es: seq<Entry>): seq<Entry> {
    Fresh(es, 0, 0xFFFF_FFFF)
  }

  predicate AnyPending(es: seq<Entry>) {
    exists i :: 0 <= i < |es| && Pending(es[i])
  }

  lemma PendingIndices(es: seq<Entry>)
    ensures PendingAre(es, FreshIndices(es, 0, 0xFFFF_FFFF))
  {
    FreshIndicesExact(es, 0, 0xFFFF_FFFF);
    var idx := FreshIndices(es, 0, 0xFFFF_FFFF);
    assert forall j :: 0 <= j < |idx| ==> idx[j] in idx;
  }

  /** The number of pending devices divided by what one cycle can take, rounded up. */
  function CyclesNeeded(total: nat, perCycle: nat): (n: nat)
    requires perCycle > 0
  {
    (total + perCycle - 1) / perCycle
  }

  /** Bounded drain: p pending devices need exactly ceil(p / perCycle) cycles. After them nothing is pending and
      each pending device has been delivered once, as it was, in slot order; one cycle earlier something was
      still waiting; and each cycle takes perCycle of them, or what is left. */
  lemma DrainsInBoundedCycles(cfg: Config, t: Table, c: Comms, envs: seq<Env>, outs: seq<Outcome>, perCycle: nat,
                              n: nat)
    requires IsHistory(cfg, t, c, envs, outs) && Unique(t.entries)
    requires QuietRun(cfg, t.entries, envs, perCycle) && perCycle > 0
    requires PendingOf(t.entries) != [] && n == CyclesNeeded(|PendingOf(t.entries)|, perCycle) <= |outs|
    ensures AcceptedOver(outs, n) == PendingOf(t.entries)
    ensures !AnyPending(Before(t, c, outs, n).0.entries)
    ensures n > 0 && AnyPending(Before(t, c, outs, n - 1).0.entries)
    ensures forall k :: 0 <= k <= n ==>
              AcceptedOver(outs, k) == PendingOf(t.entries)[..Start(|PendingOf(t.entries)|, perCycle, k)]
  {
    hide Cycle, Quiet, RoomForRecords, Accepted, Start, QuietRun, Done, AcceptedOver, FreshIndices, IsHistory;
    var es := t.entries;
    var idx := FreshIndices(es, 0, 0xFFFF_FFFF);
    PendingIndices(es);
    CyclesSuffice(|idx|, perCycle, n);
    forall k | 0 <= k <= n
      ensures AcceptedOver(outs, k) == PendingOf(es)[..Start(|idx|, perCycle, k)]
              && Before(t, c, outs, k).0.entries == Done(es, idx, Start(|idx|, perCycle, k))
    {
      DrainSoFar(cfg, t, c, envs, outs, idx, perCycle, k);
    }
    DoneAll(es, idx);
    StillWaiting(es, idx, Start(|idx|, perCycle, n - 1));
    assert PendingOf(es)[..|idx|] == PendingOf(es);
  }

  lemma CyclesSuffice(total: nat, perCycle: nat, n: nat)
    requires total > 0 && perCycle > 0 && n == CyclesNeeded(total, perCycle)
    ensures n > 0 && Start(total, perCycle, n) == total && Start(total, perCycle, n - 1) < total
  {
    DivisionRoundsUp(total, perCycle);
    StartIs(total, perCycle, n);
    StartIs(total, perCycle, n - 1);
  }

  lemma DoneAll(es: seq<Entry>, idx: seq<nat>)
    requires PendingAre(es, idx)
    ensures !AnyPending(Done(es, idx, |idx|))
  {
    assert idx[..|idx|] == idx;
  }

  lemma StillWaiting(es: seq<Entry>, idx: seq<nat>, k: nat)
    requires PendingAre(es, idx) && k < |idx|
    ensures AnyPending(Done(es, idx, k))
  {
    assert Done(es, idx, k)[idx[k]] == es[idx[k]] by {
      assert idx[k] !in idx[..k];
    }
  }
}
