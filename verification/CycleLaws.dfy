/** What one dispatch cycle transmits, case by case and field by field, whatever the link answers. */
module CycleLaws {
  import opened Words
  import opened Records
  import opened TableModel
  import opened Dispatch
  import opened Histories

  // ---- What goes out at all ----

  /** An empty frame goes out exactly when the link is up at a rate too low for the 12-byte header. It is then all the
      cycle does: without it such a link would stay silent, and its rate where it is. */
  lemma ProbesExactly(cfg: Config, t: Table, c: Comms, env: Env)
    requires |t.entries| > 0
    ensures var o := Cycle(cfg, t, c, env);
            && ((exists k :: 0 <= k < |o.uplinks| && o.uplinks[k].Probe?) <==> env.connected && env.ceiling <= 12)
            && (env.connected && env.ceiling <= 12 ==>
                  |o.uplinks| == 1 && Payload(o.uplinks[0]) == [] && o.uplinks[0].accepted == env.accepts(0)
                  && o.table == t && o.comms == c)
  {
    hide AfterAdverts, SnapshotOf, SendFragments;
    if RoomForRecords(env) && SnapshotOf(cfg, t, env) != [] {
      SnapshotHasFragments(cfg, TableSnapped(t, env), c, env, SnapshotOf(cfg, t, env), PerFragment(env.available));
    }
    if env.connected && env.ceiling <= 12 {
      assert Cycle(cfg, t, c, env).uplinks[0].Probe?;
    }
  }

  lemma SnapshotHasFragments(cfg: Config, t: Table, c: Comms, env: Env, snap: seq<Entry>, p: uint8)
    requires |t.entries| > 0 && snap != [] && p > 0
    ensures var us := SendSnapshot(cfg, t, c, env, snap, p).uplinks;
            (forall k :: 0 <= k < |us| ==> us[k].Fragment?) && (us == [] <==> env.maxUplinks == 0)
  {
    hide TableAfter, TableAt, UplinkAt;
    var of := FragmentCount(|snap|, p, env.maxUplinks);
    var c1 := c.(sequence := Next16(c.sequence));
    var us := SendFragments(cfg, t, c1, env, snap, p, of).uplinks;
    SendFragmentsAre(cfg, t, c1, env, snap, p, of);
    FragmentCountFits(|snap|, p, env.maxUplinks, 0);
    forall k | 0 <= k < |us| ensures us[k].Fragment? {
      assert IsFragment(us[k], cfg, c1, env, Piece(snap, p, k), k, of, k < LeadingAccepts(env.accepts, 0, of));
    }
  }

  /** The far end has been left without anything for the configured time; zero switches that off. */
  predicate SilentTooLong(cfg: Config, c: Comms, now: uint32) {
    0 < cfg.heartbeatMaxSilence <= now - c.lastUplink
  }

  lemma HeartbeatIsDue(cfg: Config, c: Comms, now: uint32)
    requires c.lastUplink <= now
    ensures HeartbeatDue(cfg, c, now) <==> SilentTooLong(cfg, c, now)
  {
    assert Minus32(now, c.lastUplink) == now - c.lastUplink;
  }

  /** With room for records and nothing to report, something goes out exactly when it has been silent too long, and
      that is a single heartbeat. */
  lemma HeartbeatsExactly(cfg: Config, t: Table, c: Comms, env: Env)
    requires |t.entries| > 0 && RoomForRecords(env) && SnapshotOf(cfg, t, env) == []
    requires c.lastUplink <= env.cycleClock
    ensures var o := Cycle(cfg, t, c, env);
            && (o.uplinks != [] <==> SilentTooLong(cfg, c, env.cycleClock))
            && (o.uplinks != [] ==>
                  |o.uplinks| == 1 && o.uplinks[0].Fragment? && o.uplinks[0].carried == []
                  && HasHeartbeat(o.uplinks[0].header))
            && (o.uplinks == [] ==> o.comms == c)
  {
    hide AfterAdverts, SnapshotOf;
    HeartbeatIsDue(cfg, c, env.cycleClock);
    hide HeartbeatDue;
  }

  /** Exactly when a cycle transmits nothing: the link is down; it is up at a usable rate but other traffic leaves no
      room for a header; or there is room for records and either nothing to report and no reason for a heartbeat, or no
      uplink allowed. */
  lemma SilentExactly(cfg: Config, t: Table, c: Comms, env: Env)
    requires |t.entries| > 0 && c.lastUplink <= env.cycleClock
    ensures Cycle(cfg, t, c, env).uplinks == [] <==>
            || !env.connected
            || (env.ceiling > 12 && env.available <= 12)
            || (env.ceiling > 12 && env.available >= 12 + 26
                && if SnapshotOf(cfg, t, env) == [] then !SilentTooLong(cfg, c, env.cycleClock)
                      else env.maxUplinks == 0)
  {
    hide AfterAdverts, SnapshotOf, SendFragments;
    HeartbeatIsDue(cfg, c, env.cycleClock);
    if RoomForRecords(env) && SnapshotOf(cfg, t, env) != [] {
      SnapshotHasFragments(cfg, TableSnapped(t, env), c, env, SnapshotOf(cfg, t, env), PerFragment(env.available));
    }
    hide HeartbeatDue;
  }

  // ---- What the headers say ----

  /** Everything in the header of uplink `k` of a cycle of `n` that the table does not decide. A header without records
      is the whole of its cycle. */
  ghost predicate TrueHeader(cfg: Config, env: Env, u: Uplink, k: nat, n: nat) {
    && u.Fragment?
    && u.accepted == env.accepts(k)
    && u.now == env.cycleClock
    && u.header.concentratorId == cfg.concentratorId
    && u.header.fragmentIndex == k
    && n <= u.header.fragmentCount
    && u.header.recordCount == |u.carried|
    && u.header.droppedAdvReports == Min(env.dropped(k), 255)
    && u.header.flags < 4
    && (u.carried == [] ==> n == 1 && k == 0 && u.header.fragmentCount == 1)
  }

  lemma HeadersAreTrue(cfg: Config, t: Table, c: Comms, env: Env, k: nat)
    requires |t.entries| > 0 && k < |Cycle(cfg, t, c, env).uplinks| && Cycle(cfg, t, c, env).uplinks[k].Fragment?
    ensures var us := Cycle(cfg, t, c, env).uplinks;
            && TrueHeader(cfg, env, us[k], k, |us|)
            && us[k].header.fragmentCount == us[0].header.fragmentCount
  {
    hide AfterAdverts, SnapshotOf, SendFragments;
    if RoomForRecords(env) && SnapshotOf(cfg, t, env) != [] {
      var snap, p := SnapshotOf(cfg, t, env), PerFragment(env.available);
      SnapshotHeaders(cfg, TableSnapped(t, env), c, env, snap, p, k);
      SnapshotHeaders(cfg, TableSnapped(t, env), c, env, snap, p, 0);
    }
  }

  lemma SnapshotHeaders(cfg: Config, t: Table, c: Comms, env: Env, snap: seq<Entry>, p: uint8, k: nat)
    requires |t.entries| > 0 && snap != [] && p > 0 && k < |SendSnapshot(cfg, t, c, env, snap, p).uplinks|
    ensures var us := SendSnapshot(cfg, t, c, env, snap, p).uplinks;
            && TrueHeader(cfg, env, us[k], k, |us|)
            && us[k].header.fragmentCount == FragmentCount(|snap|, p, env.maxUplinks)
  {
    hide TableAfter, TableAt, UplinkAt;
    var of := FragmentCount(|snap|, p, env.maxUplinks);
    var c1 := c.(sequence := Next16(c.sequence));
    SendFragmentsAre(cfg, t, c1, env, snap, p, of);
    var us := SendFragments(cfg, t, c1, env, snap, p, of).uplinks;
    assert IsFragment(us[k], cfg, c1, env, Piece(snap, p, k), k, of, k < LeadingAccepts(env.accepts, 0, of));
    FragmentCountFits(|snap|, p, env.maxUplinks, k);
  }

  // ---- The silence clock ----

  /** The last of the cycle's uplinks the far end can read. */
  predicate LastReadable(o: Outcome, k: nat) {
    && k < |o.uplinks| && o.uplinks[k].Fragment? && o.uplinks[k].accepted
    && forall l :: k < l < |o.uplinks| ==> !(o.uplinks[l].Fragment? && o.uplinks[l].accepted)
  }

  /** The silence clock shows when the last accepted uplink with a header left, and a refused one, with records or
      without, does not touch it. Neither does a probe. */
  lemma SilenceClockExactly(cfg: Config, t: Table, c: Comms, env: Env)
    requires |t.entries| > 0
    ensures var o := Cycle(cfg, t, c, env);
            if Visible(o) then exists k :: LastReadable(o, k) && o.comms.lastUplink == env.sentClock(k)
            else o.comms.lastUplink == c.lastUplink
  {
    hide AfterAdverts, SnapshotOf, SendFragments;
    var o := Cycle(cfg, t, c, env);
    if RoomForRecords(env) && SnapshotOf(cfg, t, env) != [] {
      SnapshotClock(cfg, TableSnapped(t, env), c, env, SnapshotOf(cfg, t, env), PerFragment(env.available));
    } else if Visible(o) {
      assert |o.uplinks| == 1 && LastReadable(o, 0);
    } else if o.uplinks != [] {
      assert !(o.uplinks[0].Fragment? && o.uplinks[0].accepted);
    }
  }

  lemma SnapshotClock(cfg: Config, t: Table, c: Comms, env: Env, snap: seq<Entry>, p: uint8)
    requires |t.entries| > 0 && snap != [] && p > 0
    ensures var o := SendSnapshot(cfg, t, c, env, snap, p);
            if Visible(o) then exists k :: LastReadable(o, k) && o.comms.lastUplink == env.sentClock(k)
            else o.comms.lastUplink == c.lastUplink
  {
    hide TableAfter, TableAt, UplinkAt;
    var of := FragmentCount(|snap|, p, env.maxUplinks);
    var c1 := c.(sequence := Next16(c.sequence));
    var m := LeadingAccepts(env.accepts, 0, of);
    var o := SendSnapshot(cfg, t, c, env, snap, p);
    SendFragmentsAre(cfg, t, c1, env, snap, p, of);
    forall k | 0 <= k < |o.uplinks| ensures o.uplinks[k].Fragment? && o.uplinks[k].accepted == (k < m) {
      assert IsFragment(o.uplinks[k], cfg, c1, env, Piece(snap, p, k), k, of, k < m);
    }
    if m > 0 {
      assert LastReadable(o, m - 1) && o.uplinks[m - 1].accepted;
    }
  }
}
