/** Heartbeats over whole runs: never sooner than the configured silence. */
module Heartbeats {
  import opened Words
  import opened TableModel
  import opened Dispatch
  import opened Histories
  import opened CycleLaws
  import opened Timing

  /** Every cycle reads its clocks within its span, the spans follow one another, and within a cycle the fragments are
      sent one after the other. The link may do anything. */
  ghost predicate Clocked(envs: seq<Env>, spans: seq<Span>) {
    && |spans| == |envs|
    && (forall i :: 0 <= i < |envs| ==> During(envs[i], spans[i].begin, spans[i].end))
    && (forall i :: 0 <= i < |spans| ==> spans[i].begin <= spans[i].end)
    && (forall i :: 0 <= i < |spans| - 1 ==> spans[i].end <= spans[i + 1].begin)
    && (forall i, k, l :: 0 <= i < |envs| && 0 <= k < l ==> envs[i].sentClock(k) <= envs[i].sentClock(l))
  }

  /** An uplink the far end can read. */
  predicate Readable(o: Outcome, l: nat) {
    l < |o.uplinks| && o.uplinks[l].Fragment? && o.uplinks[l].accepted
  }

  lemma ClockOfCycle(cfg: Config, t: Table, c: Comms, env: Env, begin: uint32, end: uint32, l: nat)
    requires |t.entries| > 0 && During(env, begin, end) && c.lastUplink <= begin <= end
    requires forall k, m :: 0 <= k < m ==> env.sentClock(k) <= env.sentClock(m)
    ensures var o := Cycle(cfg, t, c, env);
            && c.lastUplink <= o.comms.lastUplink <= end
            && (Readable(o, l) ==> env.sentClock(l) <= o.comms.lastUplink)
  {
    hide Cycle;
    var o := Cycle(cfg, t, c, env);
    SilenceClockExactly(cfg, t, c, env);
    if Visible(o) {
      var k :| LastReadable(o, k) && o.comms.lastUplink == env.sentClock(k);
      assert Readable(o, l) ==> l <= k;
    } else {
      assert !Readable(o, l);
    }
  }

  /** The silence clock before a cycle is not behind any uplink of the cycles so far. */
  lemma {:induction false} ClockIsAhead(cfg: Config, t: Table, envs: seq<Env>, outs: seq<Outcome>, spans: seq<Span>,
                                        i: nat, j: nat, l: nat)
    requires IsHistory(cfg, t, Comms(0, false, 0), envs, outs) && Clocked(envs, spans) && i < |outs|
    ensures var last := Before(t, Comms(0, false, 0), outs, i).1.lastUplink;
            last <= spans[i].begin && (j < i && Readable(outs[j], l) ==> envs[j].sentClock(l) <= last)
    decreases i
  {
    hide IsHistory, Cycle, Readable;
    HistoryStep(cfg, t, Comms(0, false, 0), envs, outs, i);
    if i == 0 {
      assert Before(t, Comms(0, false, 0), outs, 0) == (t, Comms(0, false, 0));
    } else {
      HistoryStep(cfg, t, Comms(0, false, 0), envs, outs, i - 1);
      ClockIsAhead(cfg, t, envs, outs, spans, i - 1, j, l);
      hide Before;
      var (now, statics) := Before(t, Comms(0, false, 0), outs, i - 1);
      ClockOfCycle(cfg, now, statics, envs[i - 1], spans[i - 1].begin, spans[i - 1].end, l);
    }
  }

  /** A heartbeat for want of anything to report comes no sooner than the configured silence after every uplink the far
      end could read before it, and none comes if the limit is zero, however the link behaves. */
  lemma HeartbeatsKeepTheirDistance(cfg: Config, t: Table, envs: seq<Env>, outs: seq<Outcome>, spans: seq<Span>,
                                    i: nat, k: nat, j: nat, l: nat)
    requires IsHistory(cfg, t, Comms(0, false, 0), envs, outs) && Clocked(envs, spans)
    requires i < |outs| && RoomForRecords(envs[i])
    requires k < |outs[i].uplinks| && outs[i].uplinks[k].Fragment? && HasHeartbeat(outs[i].uplinks[k].header)
    ensures cfg.heartbeatMaxSilence > 0
    ensures j < i && Readable(outs[j], l) ==> envs[i].cycleClock - envs[j].sentClock(l) >= cfg.heartbeatMaxSilence
  {
    HistoryStep(cfg, t, Comms(0, false, 0), envs, outs, i);
    ClockIsAhead(cfg, t, envs, outs, spans, i, j, l);
    hide IsHistory, Cycle, Readable, SnapshotOf;
    var (now, statics) := Before(t, Comms(0, false, 0), outs, i);
    HeartbeatExactly(cfg, now, statics, envs[i], k);
    HeartbeatsExactly(cfg, now, statics, envs[i]);
  }
}
