/** What the clock readings of a cycle mean: how old a transmitted record says it is, and how long the far end
    can be left without anything to read. */
module Timing {
  import opened Words
  import opened Records
  import opened TableModel
  import opened Dispatch
  import opened Histories

  // ---- Ages on the wire ----

  /** Advertisements may land after the snapshot's clock was read; none of them lies so far ahead that an
      unsigned age would wrap all the way round. */
  ghost predicate NoFarFuture(es: seq<Entry>, now: uint32, stale: uint32) {
    forall i :: 0 <= i < |es| ==> es[i].lastSeen - now < 0x1_0000_0000 - stale
  }

  lemma CarriedIsReportable(cfg: Config, t: Table, c: Comms, env: Env, u: Uplink, e: Entry)
    requires |t.entries| > 0 && u in Cycle(cfg, t, c, env).uplinks && u.Fragment? && e in u.carried
    ensures u.now == env.cycleClock
    ensures var es := TableSnapped(t, env).entries;
            exists i :: 0 <= i < |es| && es[i] == e && Reportable(es[i], env.snapshotClock, cfg.staleAfter)
  {
    hide AfterAdverts, SendFragments, Reportable;
    if RoomForRecords(env) && SnapshotOf(cfg, t, env) != [] {
      var snap := SnapshotOf(cfg, t, env);
      var p := PerFragment(env.available);
      var of := FragmentCount(|snap|, p, env.maxUplinks);
      var c1 := c.(sequence := Next16(c.sequence));
      var us := SendFragments(cfg, TableSnapped(t, env), c1, env, snap, p, of).uplinks;
      SendFragmentsAre(cfg, TableSnapped(t, env), c1, env, snap, p, of);
      assert us == Cycle(cfg, t, c, env).uplinks;
      var k :| 0 <= k < |us| && us[k] == u;
      assert IsFragment(us[k], cfg, c1, env, Piece(snap, p, k), k, of, k < LeadingAccepts(env.accepts, 0, of));
      assert e in snap;
      SnapshotExact(TableSnapped(t, env).entries, env.snapshotClock, cfg.staleAfter, |t.entries|);
    } else {
      hide SnapshotOf;
    }
  }

  /** Every age put on the wire is the true one, saturated at 65535: the unsigned subtraction never wraps, even
      with advertisements recorded between the two clock readings of the cycle. */
  lemma WireAgesAreTrue(cfg: Config, t: Table, c: Comms, env: Env, u: Uplink, k: nat)
    requires |t.entries| > 0 && u in Cycle(cfg, t, c, env).uplinks && u.Fragment? && k < |u.carried|
    requires env.snapshotClock <= env.cycleClock
    requires NoFarFuture(TableSnapped(t, env).entries, env.snapshotClock, cfg.staleAfter)
    ensures var e := u.carried[k];
            && e.lastSeen <= env.snapshotClock <= u.now == env.cycleClock
            && env.snapshotClock - e.lastSeen <= cfg.staleAfter
            && ToRecords(u.carried, u.now)[k].secondsSinceSeen == Min(u.now - e.lastSeen, 65535)
  {
    hide Cycle, AfterAdverts;
    CarriedIsReportable(cfg, t, c, env, u, u.carried[k]);
    var es := TableSnapped(t, env).entries;
    var i :| 0 <= i < |es| && es[i] == u.carried[k] && Reportable(es[i], env.snapshotClock, cfg.staleAfter);
    ReportableInPlainTerms(es[i], env.snapshotClock, cfg.staleAfter);
  }

  // ---- Silence ----

  /** The link takes whatever it is given, and a header always fits. */
  ghost predicate Willing(env: Env) {
    RoomForHeader(env) && env.maxUplinks >= 1 && forall k :: env.accepts(k)
  }

  /** The cycle read its clocks between `begin` and `end`. */
  ghost predicate During(env: Env, begin: uint32, end: uint32) {
    && begin <= env.cycleClock <= end
    && forall k :: begin <= env.sentClock(k) <= end
  }

  /** The cycle left the far end something to read at this time. */
  ghost predicate ReadAt(o: Outcome, env: Env, time: uint32) {
    exists k :: 0 <= k < |o.uplinks| && o.uplinks[k].Fragment? && o.uplinks[k].accepted && env.sentClock(k) == time
  }

  /** One cycle on a willing link: it either leaves something for the far end to read, or the far end has had
      something to read less than the limit ago. */
  lemma CycleBreaksSilence(cfg: Config, t: Table, c: Comms, env: Env, begin: uint32, end: uint32)
    requires |t.entries| > 0 && Willing(env) && During(env, begin, end) && cfg.heartbeatMaxSilence > 0
    requires c.lastUplink <= begin
    ensures var o := Cycle(cfg, t, c, env);
            && c.lastUplink <= o.comms.lastUplink <= end
            && (Visible(o) ==> begin <= o.comms.lastUplink && ReadAt(o, env, o.comms.lastUplink))
            && (!Visible(o) ==> o.comms.lastUplink == c.lastUplink && begin - c.lastUplink < cfg.heartbeatMaxSilence)
  {
    hide AfterAdverts, SnapshotOf, TableAfter, TableAt;
    var o := Cycle(cfg, t, c, env);
    if RoomForRecords(env) && SnapshotOf(cfg, t, env) != [] {
      var snap := SnapshotOf(cfg, t, env);
      var p := PerFragment(env.available);
      var of := FragmentCount(|snap|, p, env.maxUplinks);
      FragmentCountFits(|snap|, p, env.maxUplinks, 0);
      assert LeadingAccepts(env.accepts, 0, of) == of > 0;
      var us := SendFragments(cfg, TableSnapped(t, env), c.(sequence := Next16(c.sequence)), env, snap, p, of).uplinks;
      SendFragmentsAre(cfg, TableSnapped(t, env), c.(sequence := Next16(c.sequence)), env, snap, p, of);
      assert us == o.uplinks && us[0].accepted && us[0].Fragment?;
      assert o.comms.lastUplink == env.sentClock(of - 1);
      assert IsFragment(us[of - 1], cfg, c.(sequence := Next16(c.sequence)), env, Piece(snap, p, of - 1), of - 1, of,
                        true);
      assert o.uplinks[of - 1].Fragment? && o.uplinks[of - 1].accepted;
    } else if o.uplinks != [] {
      assert o.uplinks[0].Fragment? && o.uplinks[0].accepted;
    }
  }

  /** When each cycle of a run began and ended. */
  datatype Span = Span(begin: uint32, end: uint32)

  /** Cycles in order, each over within `period` seconds of the beginning of the one before; boot counts as the
      beginning of the first. */
  ghost predicate Paced(spans: seq<Span>, period: nat) {
    && (forall i :: 0 <= i < |spans| ==> spans[i].begin <= spans[i].end)
    && (forall i :: 0 <= i < |spans| - 1 ==>
          spans[i].end <= spans[i + 1].begin && spans[i + 1].end - spans[i].begin <= period)
    && (|spans| > 0 ==> spans[0].end <= period)
  }

  ghost predicate WillingThroughout(envs: seq<Env>, spans: seq<Span>) {
    |spans| == |envs| &&
    forall i :: 0 <= i < |envs| ==> Willing(envs[i]) && During(envs[i], spans[i].begin, spans[i].end)
  }

  lemma {:induction false} SilenceSoFar(cfg: Config, t: Table, envs: seq<Env>, outs: seq<Outcome>, spans: seq<Span>,
                                        period: nat, i: nat)
    requires IsHistory(cfg, t, Comms(0, false, 0), envs, outs) && cfg.heartbeatMaxSilence > 0
    requires WillingThroughout(envs, spans) && Paced(spans, period) && i < |outs|
    ensures var last := Before(t, Comms(0, false, 0), outs, i).1.lastUplink;
            && last <= spans[i].begin
            && (i > 0 ==> last <= spans[i - 1].end)
            && (i > 0 ==> spans[i - 1].begin - last < cfg.heartbeatMaxSilence)
            && (last == 0 || exists j :: 0 <= j < i && ReadAt(outs[j], envs[j], last))
            && (i == 0 ==> last == 0)
  {
    hide Cycle, Willing, During, Visible, ReadAt;
    if i > 0 {
      SilenceSoFar(cfg, t, envs, outs, spans, period, i - 1);
      var before := Before(t, Comms(0, false, 0), outs, i - 1);
      CycleBreaksSilence(cfg, before.0, before.1, envs[i - 1], spans[i - 1].begin, spans[i - 1].end);
    }
  }

  /** The silence bound: with a limit of S seconds and cycles that follow one another within P, at no time from the
      end of one cycle to the end of the next has it been S + P seconds since the far end was last left something
      to read, or since boot. Records, heartbeats and header-only uplinks all count; probes do not. */
  lemma SilenceBound(cfg: Config, t: Table, envs: seq<Env>, outs: seq<Outcome>, spans: seq<Span>, period: nat, i: nat,
                     now: nat)
    requires IsHistory(cfg, t, Comms(0, false, 0), envs, outs) && cfg.heartbeatMaxSilence > 0
    requires WillingThroughout(envs, spans) && Paced(spans, period) && i < |outs|
    requires now <= spans[i].end && (i > 0 ==> spans[i - 1].end <= now)
    ensures now < cfg.heartbeatMaxSilence + period
            || exists j, time: uint32 ::
                 0 <= j < i && ReadAt(outs[j], envs[j], time)
                 && time <= now < time + cfg.heartbeatMaxSilence + period
  {
    hide Cycle, Willing, During, ReadAt;
    SilenceSoFar(cfg, t, envs, outs, spans, period, i);
    if i > 0 {
      var k := i - 1;
      assert spans[k + 1].end - spans[k].begin <= period;
    }
  }
}
