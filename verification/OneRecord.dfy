/** Cycles that carry exactly one record, which is then the one in the first slot. */
module OneRecord {
  import opened Words
  import opened Records
  import opened TableModel
  import opened Dispatch

  /** The first slot has something to report, the cycle is one fragment of one record, the link takes it and nothing
      is heard until it is acknowledged. */
  ghost predicate Single(cfg: Config, t: Table, env: Env)
    requires |t.entries| > 0
  {
    var p := if RoomForRecords(env) then PerFragment(env.available) else 0;
    && p > 0 && env.maxUplinks > 0 && env.accepts(0)
    && env.beforeFragment(0) == [] && env.beforeAck(0) == []
    && Reportable(TableSnapped(t, env).entries[0], env.snapshotClock, cfg.staleAfter)
    && (|t.entries| == 1 || (p == 1 && env.maxUplinks == 1))
  }

  lemma OneCount(total: nat, p: uint8, maxUplinks: uint8)
    requires total > 0 && p > 0 && maxUplinks > 0 && (total == 1 || (p == 1 && maxUplinks == 1))
    ensures FragmentCount(total, p, maxUplinks) == 1 && Start(total, p, 1) == 1
  {
    FragmentCountFits(total, p, maxUplinks, 0);
    if total == 1 {
      assert (1 + p - 1) / p == 1;
    }
  }

  lemma FirstLeads(es: seq<Entry>, now: uint32, stale: uint32)
    requires |es| > 0 && Reportable(es[0], now, stale)
    ensures 1 <= |Snapshot(es, now, stale, |es|)| <= |es| && Snapshot(es, now, stale, |es|)[0] == es[0]
  {
    var r := FreshIndices(es, now, stale);
    FreshIndicesExact(es, now, stale);
    SnapshotExact(es, now, stale, |es|);
    assert 0 in r;
    assert r[0] in r;
  }

  function FirstAcked(x: Table): Table
    requires |x.entries| > 0
  {
    x.(entries := x.entries[0 := x.entries[0].(reportedSeq := x.entries[0].updateSeq)])
  }

  /** Such a cycle carries the first slot's entry and nothing else, acknowledges it, and leaves all else as it was. */
  lemma SingleCycle(cfg: Config, t: Table, c: Comms, env: Env)
    requires |t.entries| > 0 && Single(cfg, t, env)
    ensures var x, o := TableSnapped(t, env), Cycle(cfg, t, c, env);
            && o.table == FirstAcked(x)
            && |o.uplinks| == 1 && o.uplinks[0].Fragment? && o.uplinks[0].accepted
            && o.uplinks[0].carried == [x.entries[0]]
  {
    hide HeaderFor, Reportable, AfterAdverts, Snapshot;
    var x, p := TableSnapped(t, env), PerFragment(env.available);
    FirstLeads(x.entries, env.snapshotClock, cfg.staleAfter);
    var snap := SnapshotOf(cfg, t, env);
    OneCount(|snap|, p, env.maxUplinks);
    assert Piece(snap, p, 0) == [snap[0]];
    assert LeadingAccepts(env.accepts, 0, 1) == 1;
    NothingHeard(x, env);
    assert x.entries[0].inUse by { InUse(x.entries[0], env.snapshotClock, cfg.staleAfter); }
    OneAck(x, env, [snap[0]]);
  }

  lemma InUse(e: Entry, now: uint32, stale: uint32)
    requires Reportable(e, now, stale)
    ensures e.inUse
  {
  }

  lemma NothingHeard(x: Table, env: Env)
    requires |x.entries| > 0 && env.beforeFragment(0) == [] && env.beforeAck(0) == []
    ensures AfterAdverts(x, env.beforeFragment(0)) == x && AfterAdverts(x, env.beforeAck(0)) == x
  {
  }

  lemma OneAck(x: Table, env: Env, es: seq<Entry>)
    requires |x.entries| > 0 && x.entries[0].inUse && es == [x.entries[0]]
    requires env.beforeAck(0) == []
    ensures AckedTable(x, es, env, 0, 1) == FirstAcked(x)
  {
    assert AckedTable(x, es, env, 0, 0) == x;
  }

  /** Heard at the very second the snapshot reads its clock. */
  lemma NoAge(now: uint32)
    ensures Minus32(now, now) == 0
  {
  }
}
